/** TCP options: the encoders and the two parsers of protocol/header/tcp.go, and makeSynOptions and
  * makeOptions of protocol/transport/tcp/connect.go.
  */
module Options {
  import opened Packets
  import opened Checksum

  const EOL: byte := 0
  const NOP: byte := 1
  const MSS: byte := 2
  const WS: byte := 3
  const SACK_PERMITTED: byte := 4
  const SACK: byte := 5
  const TS: byte := 8

  const MAX_WND_SCALE: int := 14
  const MAX_SACK_BLOCKS: nat := 4
  const MAX_OPTION_SIZE: nat := 40

  type word32 = x: int | 0 <= x < 0x1_0000_0000

  datatype SynOptions = SynOptions(mss: word, ws: int, ts: bool, tsVal: word32, tsEcr: word32, sackPermitted: bool)

  datatype Block = Block(start: word32, end: word32)

  datatype Segment = Segment(ts: bool, tsVal: word32, tsEcr: word32, blocks: seq<Block>)

  // ----- numbers in network order

  function Bytes32(v: word32): (b: seq<byte>)
    ensures |b| == 4
  {
    var h := v / 256;
    var w := h / 256;
    [w / 256, w % 256, h % 256, v % 256]
  }

  function Read32(b: seq<byte>, i: nat): word32
    requires i + 4 <= |b|
  {
    (b[i] as int) * 0x100_0000 + (b[i + 1] as int) * 0x1_0000 + (b[i + 2] as int) * 256 + (b[i + 3] as int)
  }

  lemma Reads32(b: seq<byte>, i: nat, v: word32)
    requires i + 4 <= |b| && b[i..i + 4] == Bytes32(v)
    ensures Read32(b, i) == v
  {
    var s := b[i..i + 4];
    assert s[0] == b[i] && s[1] == b[i + 1] && s[2] == b[i + 2] && s[3] == b[i + 3];
  }

  // ----- what the encoders write

  function MssBytes(mss: word): seq<byte> { [MSS, 4, High(mss), Low(mss)] }

  function WsBytes(ws: nat): seq<byte> { [WS, 3, ws % 256] }

  function TsBytes(tsVal: word32, tsEcr: word32): seq<byte> { [TS, 10] + Bytes32(tsVal) + Bytes32(tsEcr) }

  function SackPermittedBytes(): seq<byte> { [SACK_PERMITTED, 2] }

  function BlockBytes(blocks: seq<Block>): (b: seq<byte>)
    ensures |b| == 8 * |blocks|
  {
    if |blocks| == 0 then []
    else
      var n := |blocks| - 1;
      BlockBytes(blocks[..n]) + Bytes32(blocks[n].start) + Bytes32(blocks[n].end)
  }

  function SackBytes(blocks: seq<Block>): seq<byte>
    requires |blocks| <= MAX_SACK_BLOCKS
  {
    [SACK, 8 * |blocks| + 2] + BlockBytes(blocks)
  }

  /** makeSynOptions */
  function SynBytes(o: SynOptions): seq<byte> {
    MssBytes(o.mss)
    + (if o.ts && o.sackPermitted then SackPermittedBytes() + TsBytes(o.tsVal, o.tsEcr)
       else if o.ts then [NOP, NOP] + TsBytes(o.tsVal, o.tsEcr)
       else if o.sackPermitted then [NOP, NOP] + SackPermittedBytes()
       else [])
    + (if o.ws >= 0 then [NOP] + WsBytes(o.ws) else [])
  }

  /** How many blocks fit: EncodeSACKBlocks, with `room` bytes. */
  function Fitting(blocks: nat, room: nat): nat {
    var l := if blocks > MAX_SACK_BLOCKS then MAX_SACK_BLOCKS else blocks;
    var ll := if room < 2 then 0 else (room - 2) / 8;
    if ll < l then ll else l
  }

  /** The blocks makeOptions sends. */
  function Sent(o: Segment): seq<Block> {
    o.blocks[..Fitting(|o.blocks|, MAX_OPTION_SIZE - (if o.ts then 12 else 0) - 2)]
  }

  /** makeOptions, when SACK was negotiated. */
  function SegmentBytes(o: Segment): seq<byte> {
    (if o.ts then [NOP, NOP] + TsBytes(o.tsVal, o.tsEcr) else [])
    + (if |o.blocks| > 0 then [NOP, NOP] + SackBytes(Sent(o)) else [])
  }

  // ----- the parsers

  datatype Turn<T> = Stop(value: T) | Next(i: nat, value: T)

  /** An option of a kind that is not known. */
  function Skip<T>(b: seq<byte>, i: nat, value: T): (r: Turn<T>)
    requires i < |b|
    ensures r.Next? ==> i < r.i <= |b|
  {
    if i + 2 > |b| || b[i + 1] < 2 || i + (b[i + 1] as int) > |b| then Stop(value)
      else Next(i + (b[i + 1] as int), value)
  }

  /** One turn of ParseSynOptions' loop at offset i. */
  function SynTurn(b: seq<byte>, i: nat, isAck: bool, o: SynOptions): (r: Turn<SynOptions>)
    requires i < |b|
    ensures r.Next? ==> i < r.i <= |b|
  {
    var k := b[i];
    if k == EOL then Next(|b|, o)
    else if k == NOP then Next(i + 1, o)
    else if k == MSS then
      if i + 4 > |b| || b[i + 1] != 4 || Pair(b[i + 2], b[i + 3]) == 0 then Stop(o)
      else Next(i + 4, o.(mss := Pair(b[i + 2], b[i + 3])))
    else if k == WS then
      if i + 3 > |b| || b[i + 1] != 3 then Stop(o)
      else
        var ws := b[i + 2] as int;
        Next(i + 3, o.(ws := if ws > MAX_WND_SCALE then MAX_WND_SCALE else ws))
    else if k == TS then
      if i + 10 > |b| || b[i + 1] != 10 then Stop(o)
      else Next(i + 10, o.(ts := true, tsVal := Read32(b, i + 2), tsEcr := if isAck then Read32(b, i + 6) else o.tsEcr))
    else if k == SACK_PERMITTED then
      if i + 2 > |b| || b[i + 1] != 2 then Stop(o) else Next(i + 2, o.(sackPermitted := true))
    else Skip(b, i, o)
  }

  function SynFrom(b: seq<byte>, i: nat, isAck: bool, o: SynOptions): SynOptions
    decreases |b| - i
  {
    if i >= |b| then o
    else
      match SynTurn(b, i, isAck, o)
      case Stop(v) => v
      case Next(j, v) => SynFrom(b, j, isAck, v)
  }

  function SynDefault(): SynOptions {
    SynOptions(536, -1, false, 0, 0, false)
  }

  function ParseSyn(b: seq<byte>, isAck: bool): SynOptions {
    SynFrom(b, 0, isAck, SynDefault())
  }

  function ReadBlocks(b: seq<byte>, i: nat, n: nat): (blocks: seq<Block>)
    requires i + 8 * n <= |b|
    ensures |blocks| == n
  {
    if n == 0 then []
    else ReadBlocks(b, i, n - 1) + [Block(Read32(b, i + 8 * (n - 1)), Read32(b, i + 8 * (n - 1) + 4))]
  }

  /** One turn of ParseTCPOptions' loop at offset i. Go's remainder is negative for the lengths
    * 0 and 1, so they stop it. */
  function SegmentTurn(b: seq<byte>, i: nat, o: Segment): (r: Turn<Segment>)
    requires i < |b|
    ensures r.Next? ==> i < r.i <= |b|
  {
    var k := b[i];
    if k == EOL then Next(|b|, o)
    else if k == NOP then Next(i + 1, o)
    else if k == TS then
      if i + 10 > |b| || b[i + 1] != 10 then Stop(o)
      else Next(i + 10, o.(ts := true, tsVal := Read32(b, i + 2), tsEcr := Read32(b, i + 6)))
    else if k == SACK then
      if i + 2 > |b| then Stop(o)
      else
        var l := b[i + 1] as int;
        if i + l > |b| || l < 2 || (l - 2) % 8 != 0 then Stop(o)
        else Next(i + l, o.(blocks := ReadBlocks(b, i + 2, (l - 2) / 8)))
    else Skip(b, i, o)
  }

  function SegmentFrom(b: seq<byte>, i: nat, o: Segment): Segment
    decreases |b| - i
  {
    if i >= |b| then o
    else
      match SegmentTurn(b, i, o)
      case Stop(v) => v
      case Next(j, v) => SegmentFrom(b, j, v)
  }

  function ParseSegment(b: seq<byte>): Segment {
    SegmentFrom(b, 0, Segment(false, 0, 0, []))
  }

  // ----- round trips

  /** b reads `piece` at offset i. */
  predicate At(b: seq<byte>, i: nat, piece: seq<byte>) {
    i + |piece| <= |b| && b[i..i + |piece|] == piece
  }

  lemma AtSplit(b: seq<byte>, i: nat, x: seq<byte>, y: seq<byte>)
    requires At(b, i, x + y)
    ensures At(b, i, x) && At(b, i + |x|, y)
  {
    assert b[i..i + |x|] == b[i..i + |x + y|][..|x|];
    assert b[i + |x|..i + |x + y|] == b[i..i + |x + y|][|x|..];
  }

  lemma AtByte(b: seq<byte>, i: nat, piece: seq<byte>, k: nat)
    requires At(b, i, piece) && k < |piece|
    ensures b[i + k] == piece[k]
  {
    assert b[i..i + |piece|][k] == b[i + k];
  }

  lemma SynNop(b: seq<byte>, i: nat, isAck: bool, o: SynOptions)
    requires At(b, i, [NOP])
    ensures SynFrom(b, i, isAck, o) == SynFrom(b, i + 1, isAck, o)
  {
    AtByte(b, i, [NOP], 0);
  }

  lemma SynMss(b: seq<byte>, i: nat, isAck: bool, o: SynOptions, mss: word)
    requires At(b, i, MssBytes(mss)) && mss > 0
    ensures SynFrom(b, i, isAck, o) == SynFrom(b, i + 4, isAck, o.(mss := mss))
  {
    var p := MssBytes(mss);
    AtByte(b, i, p, 0);
    AtByte(b, i, p, 1);
    AtByte(b, i, p, 2);
    AtByte(b, i, p, 3);
  }

  lemma SynWs(b: seq<byte>, i: nat, isAck: bool, o: SynOptions, ws: nat)
    requires At(b, i, WsBytes(ws))
    ensures SynFrom(b, i, isAck, o) ==
      SynFrom(b, i + 3, isAck, o.(ws := if ws % 256 > MAX_WND_SCALE then MAX_WND_SCALE else ws % 256))
  {
    var p := WsBytes(ws);
    AtByte(b, i, p, 0);
    AtByte(b, i, p, 1);
    AtByte(b, i, p, 2);
  }

  lemma SynSackPermitted(b: seq<byte>, i: nat, isAck: bool, o: SynOptions)
    requires At(b, i, SackPermittedBytes())
    ensures SynFrom(b, i, isAck, o) == SynFrom(b, i + 2, isAck, o.(sackPermitted := true))
  {
    AtByte(b, i, SackPermittedBytes(), 0);
    AtByte(b, i, SackPermittedBytes(), 1);
  }

  lemma ReadsTs(b: seq<byte>, i: nat, tsVal: word32, tsEcr: word32)
    requires At(b, i, TsBytes(tsVal, tsEcr))
    ensures i + 10 <= |b| && b[i] == TS && b[i + 1] == 10 && Read32(b, i + 2) == tsVal && Read32(b, i + 6) == tsEcr
  {
    hide Read32, Bytes32;
    AtSplit(b, i, [TS, 10] + Bytes32(tsVal), Bytes32(tsEcr));
    AtSplit(b, i, [TS, 10], Bytes32(tsVal));
    AtByte(b, i, [TS, 10], 0);
    AtByte(b, i, [TS, 10], 1);
    Reads32(b, i + 2, tsVal);
    Reads32(b, i + 6, tsEcr);
  }

  lemma SynTs(b: seq<byte>, i: nat, isAck: bool, o: SynOptions, tsVal: word32, tsEcr: word32)
    requires At(b, i, TsBytes(tsVal, tsEcr))
    ensures SynFrom(b, i, isAck, o) ==
      SynFrom(b, i + 10, isAck, o.(ts := true, tsVal := tsVal, tsEcr := if isAck then tsEcr else o.tsEcr))
  {
    hide Read32, TsBytes;
    ReadsTs(b, i, tsVal, tsEcr);
  }

  /** What a peer can know of o: times only with the option, the echo only in a SYN-ACK, and one
    * byte of scale, cut at 14. */
  function Heard(o: SynOptions, isAck: bool): SynOptions {
    o.(ws := if o.ws < 0 then -1 else if o.ws % 256 > 14 then 14 else o.ws % 256,
       tsVal := if o.ts then o.tsVal else 0, tsEcr := if o.ts && isAck then o.tsEcr else 0)
  }

  function Middle(o: SynOptions): seq<byte> {
    if o.ts && o.sackPermitted then SackPermittedBytes() + TsBytes(o.tsVal, o.tsEcr)
    else if o.ts then [NOP, NOP] + TsBytes(o.tsVal, o.tsEcr)
    else if o.sackPermitted then [NOP, NOP] + SackPermittedBytes()
    else []
  }

  lemma SynMiddle(b: seq<byte>, i: nat, isAck: bool, o: SynOptions, acc: SynOptions)
    requires At(b, i, Middle(o)) && !acc.ts && !acc.sackPermitted && acc.tsVal == 0 == acc.tsEcr
    ensures SynFrom(b, i, isAck, acc) == SynFrom(b, i + |Middle(o)|, isAck,
      acc.(ts := o.ts, sackPermitted := o.sackPermitted, tsVal := if o.ts then o.tsVal else 0,
           tsEcr := if o.ts && isAck then o.tsEcr else 0))
  {
    hide SynFrom, TsBytes;
    TsSize(o.tsVal, o.tsEcr);
    if o.ts && o.sackPermitted {
      AtSplit(b, i, SackPermittedBytes(), TsBytes(o.tsVal, o.tsEcr));
      SynSackPermitted(b, i, isAck, acc);
      SynTs(b, i + 2, isAck, acc.(sackPermitted := true), o.tsVal, o.tsEcr);
    } else if o.ts {
      AtSplit(b, i, [NOP, NOP], TsBytes(o.tsVal, o.tsEcr));
      SynTwoNops(b, i, isAck, acc);
      SynTs(b, i + 2, isAck, acc, o.tsVal, o.tsEcr);
    } else if o.sackPermitted {
      AtSplit(b, i, [NOP, NOP], SackPermittedBytes());
      SynTwoNops(b, i, isAck, acc);
      SynSackPermitted(b, i + 2, isAck, acc);
    }
  }

  lemma TsSize(tsVal: word32, tsEcr: word32)
    ensures |TsBytes(tsVal, tsEcr)| == 10
  {
  }

  lemma SynTwoNops(b: seq<byte>, i: nat, isAck: bool, o: SynOptions)
    requires At(b, i, [NOP, NOP])
    ensures SynFrom(b, i, isAck, o) == SynFrom(b, i + 2, isAck, o)
  {
    assert [NOP, NOP] == [NOP] + [NOP];
    AtSplit(b, i, [NOP], [NOP]);
    SynNop(b, i, isAck, o);
    SynNop(b, i + 1, isAck, o);
  }

  lemma SynEnd(b: seq<byte>, isAck: bool, o: SynOptions)
    ensures SynFrom(b, |b|, isAck, o) == o
  {
  }

  lemma SynMssZero(b: seq<byte>, i: nat, isAck: bool, o: SynOptions)
    requires At(b, i, MssBytes(0))
    ensures SynFrom(b, i, isAck, o) == o
  {
    var p := MssBytes(0);
    AtByte(b, i, p, 0);
    AtByte(b, i, p, 1);
    AtByte(b, i, p, 2);
    AtByte(b, i, p, 3);
  }

  /** ParseSynOptions reads back what makeSynOptions wrote, unless the size is 0: then it stops
    * before it has read anything. */
  lemma SynRoundTrip(o: SynOptions, isAck: bool)
    ensures ParseSyn(SynBytes(o), isAck) == if o.mss > 0 then Heard(o, isAck) else SynDefault()
  {
    hide SynFrom, TsBytes, MssBytes, WsBytes;
    var b := SynBytes(o);
    assert At(b, 0, b);
    if o.mss == 0 {
      AtSplit(b, 0, MssBytes(0), b[|MssBytes(0)|..]);
      SynMssZero(b, 0, isAck, SynDefault());
    } else {
      SynOptionsBack(o, isAck);
    }
  }

  lemma SynOptionsBack(o: SynOptions, isAck: bool)
    requires o.mss > 0
    ensures ParseSyn(SynBytes(o), isAck) == Heard(o, isAck)
  {
    hide SynFrom, TsBytes, MssBytes, WsBytes;
    TsSize(o.tsVal, o.tsEcr);
    var b := SynBytes(o);
    var tail := if o.ws >= 0 then [NOP] + WsBytes(o.ws) else [];
    assert b == MssBytes(o.mss) + Middle(o) + tail;
    assert At(b, 0, b);
    AtSplit(b, 0, MssBytes(o.mss) + Middle(o), tail);
    AtSplit(b, 0, MssBytes(o.mss), Middle(o));
    MssSize(o.mss);
    SynMss(b, 0, isAck, SynDefault(), o.mss);
    var acc := SynDefault().(mss := o.mss);
    SynMiddle(b, 4, isAck, o, acc);
    var mid := acc.(ts := o.ts, sackPermitted := o.sackPermitted, tsVal := if o.ts then o.tsVal else 0,
                    tsEcr := if o.ts && isAck then o.tsEcr else 0);
    var j := 4 + |Middle(o)|;
    if o.ws >= 0 {
      AtSplit(b, j, [NOP], WsBytes(o.ws));
      SynNop(b, j, isAck, mid);
      SynWs(b, j + 1, isAck, mid, o.ws);
      WsSize(o.ws);
      SynEnd(b, isAck, mid.(ws := if o.ws % 256 > MAX_WND_SCALE then MAX_WND_SCALE else o.ws % 256));
    } else {
      SynEnd(b, isAck, mid);
    }
  }

  lemma MssSize(mss: word)
    ensures |MssBytes(mss)| == 4
  {
  }

  lemma WsSize(ws: nat)
    ensures |WsBytes(ws)| == 3
  {
  }

  // ----- the options of other segments

  lemma {:induction false} ReadsBlocks(b: seq<byte>, i: nat, blocks: seq<Block>)
    requires At(b, i, BlockBytes(blocks))
    ensures ReadBlocks(b, i, |blocks|) == blocks
    decreases |blocks|
  {
    hide Read32, Bytes32;
    if |blocks| > 0 {
      var n := |blocks| - 1;
      var x := blocks[n];
      AtSplit(b, i, BlockBytes(blocks[..n]) + Bytes32(x.start), Bytes32(x.end));
      AtSplit(b, i, BlockBytes(blocks[..n]), Bytes32(x.start));
      Reads32(b, i + 8 * n, x.start);
      Reads32(b, i + 8 * n + 4, x.end);
      ReadsBlocks(b, i, blocks[..n]);
      assert blocks == blocks[..n] + [x];
    }
  }

  lemma SegmentTwoNops(b: seq<byte>, i: nat, o: Segment)
    requires At(b, i, [NOP, NOP])
    ensures SegmentFrom(b, i, o) == SegmentFrom(b, i + 2, o)
  {
    AtByte(b, i, [NOP, NOP], 0);
    AtByte(b, i, [NOP, NOP], 1);
  }

  lemma SegmentTs(b: seq<byte>, i: nat, o: Segment, tsVal: word32, tsEcr: word32)
    requires At(b, i, TsBytes(tsVal, tsEcr))
    ensures SegmentFrom(b, i, o) == SegmentFrom(b, i + 10, o.(ts := true, tsVal := tsVal, tsEcr := tsEcr))
  {
    hide Read32, TsBytes;
    ReadsTs(b, i, tsVal, tsEcr);
  }

  lemma SegmentSack(b: seq<byte>, i: nat, o: Segment, blocks: seq<Block>)
    requires |blocks| <= MAX_SACK_BLOCKS && At(b, i, SackBytes(blocks))
    ensures SegmentFrom(b, i, o) == SegmentFrom(b, i + 2 + 8 * |blocks|, o.(blocks := blocks))
  {
    hide Read32, BlockBytes, ReadBlocks;
    AtByte(b, i, SackBytes(blocks), 0);
    AtByte(b, i, SackBytes(blocks), 1);
    AtSplit(b, i, [SACK, 8 * |blocks| + 2], BlockBytes(blocks));
    ReadsBlocks(b, i + 2, blocks);
  }

  lemma SegmentEnd(b: seq<byte>, o: Segment)
    ensures SegmentFrom(b, |b|, o) == o
  {
  }

  /** ParseTCPOptions reads back what makeOptions wrote: the times, and the first three SACK blocks
    * with them or the first four without. */
  lemma SegmentRoundTrip(o: Segment)
    ensures ParseSegment(SegmentBytes(o)) ==
      Segment(o.ts, if o.ts then o.tsVal else 0, if o.ts then o.tsEcr else 0,
              var n := if o.ts then 3 else 4; if |o.blocks| <= n then o.blocks else o.blocks[..n])
  {
    hide SegmentFrom, TsBytes, BlockBytes;
    TsSize(o.tsVal, o.tsEcr);
    var b := SegmentBytes(o);
    var head := if o.ts then [NOP, NOP] + TsBytes(o.tsVal, o.tsEcr) else [];
    var tail := if |o.blocks| > 0 then [NOP, NOP] + SackBytes(Sent(o)) else [];
    assert b == head + tail && At(b, 0, b);
    AtSplit(b, 0, head, tail);
    var acc := Segment(false, 0, 0, []);
    if o.ts {
      AtSplit(b, 0, [NOP, NOP], TsBytes(o.tsVal, o.tsEcr));
      SegmentTwoNops(b, 0, acc);
      SegmentTs(b, 2, acc, o.tsVal, o.tsEcr);
      acc := Segment(true, o.tsVal, o.tsEcr, []);
    }
    var j := |head|;
    if |o.blocks| > 0 {
      AtSplit(b, j, [NOP, NOP], SackBytes(Sent(o)));
      SegmentTwoNops(b, j, acc);
      SegmentSack(b, j + 2, acc, Sent(o));
      SegmentEnd(b, acc.(blocks := Sent(o)));
    } else {
      SegmentEnd(b, acc);
    }
  }

  /** Options fill whole words of a header and at most ten of them: the two panics about padding
    * are dead. */
  lemma Sizes(o: SynOptions, s: Segment)
    ensures |SynBytes(o)| % 4 == 0 && |SynBytes(o)| <= 20
    ensures |SegmentBytes(s)| % 4 == 0 && |SegmentBytes(s)| <= MAX_OPTION_SIZE
  {
    hide TsBytes, BlockBytes;
    TsSize(o.tsVal, o.tsEcr);
    TsSize(s.tsVal, s.tsEcr);
  }

  // ----- the encoders, on a buffer that may hold anything

  method EncodeMssOption(mss: word32, b: array<byte>, offset: nat) returns (n: nat)
    requires offset <= b.Length
    modifies b
    ensures if b.Length - offset < 4 then n == 0 && b[..] == old(b[..])
            else n == 4 && b[..offset + 4] == old(b[..offset]) + MssBytes(mss % WORD)
  {
    if b.Length - offset < 4 {
      return 0;
    }
    b[offset], b[offset + 1], b[offset + 2], b[offset + 3] := MSS, 4, mss / 256 % 256, mss % 256;
    LowHalf(mss);
    return 4;
  }

  lemma LowHalf(mss: word32)
    ensures mss / 256 % 256 == High(mss % WORD) && mss % 256 == Low(mss % WORD)
  {
    var q := mss / WORD;
    assert mss == q * WORD + mss % WORD;
    assert mss / 256 == q * 256 + mss % WORD / 256;
  }

  method EncodeWsOption(ws: nat, b: array<byte>, offset: nat) returns (n: nat)
    requires offset <= b.Length
    modifies b
    ensures if b.Length - offset < 3 then n == 0 && b[..] == old(b[..])
            else n == 3 && b[..offset + 3] == old(b[..offset]) + WsBytes(ws)
  {
    if b.Length - offset < 3 {
      return 0;
    }
    b[offset], b[offset + 1], b[offset + 2] := WS, 3, ws % 256;
    return 3;
  }

  method PutUint32(b: array<byte>, i: nat, v: word32)
    requires i + 4 <= b.Length
    modifies b
    ensures b[..i + 4] == old(b[..i]) + Bytes32(v)
  {
    var h := v / 256;
    var w := h / 256;
    b[i], b[i + 1], b[i + 2], b[i + 3] := w / 256, w % 256, h % 256, v % 256;
  }

  method EncodeTsOption(tsVal: word32, tsEcr: word32, b: array<byte>, offset: nat) returns (n: nat)
    requires offset <= b.Length
    modifies b
    ensures if b.Length - offset < 10 then n == 0 && b[..] == old(b[..])
            else n == 10 && b[..offset + 10] == old(b[..offset]) + TsBytes(tsVal, tsEcr)
  {
    hide Bytes32;
    if b.Length - offset < 10 {
      return 0;
    }
    ghost var head := b[..offset];
    b[offset], b[offset + 1] := TS, 10;
    assert b[..offset + 2] == head + [TS, 10];
    PutUint32(b, offset + 2, tsVal);
    PutUint32(b, offset + 6, tsEcr);
    assert head + [TS, 10] + Bytes32(tsVal) + Bytes32(tsEcr) == head + TsBytes(tsVal, tsEcr);
    return 10;
  }

  method EncodeSackPermittedOption(b: array<byte>, offset: nat) returns (n: nat)
    requires offset <= b.Length
    modifies b
    ensures if b.Length - offset < 2 then n == 0 && b[..] == old(b[..])
            else n == 2 && b[..offset + 2] == old(b[..offset]) + SackPermittedBytes()
  {
    if b.Length - offset < 2 {
      return 0;
    }
    b[offset], b[offset + 1] := SACK_PERMITTED, 2;
    return 2;
  }

  method EncodeNop(b: array<byte>, offset: nat) returns (n: nat)
    requires offset <= b.Length
    modifies b
    ensures if b.Length == offset then n == 0 && b[..] == old(b[..])
            else n == 1 && b[..offset + 1] == old(b[..offset]) + [NOP]
  {
    if b.Length == offset {
      return 0;
    }
    b[offset] := NOP;
    return 1;
  }

  method EncodeTwoNops(b: array<byte>, offset: nat) returns (n: nat)
    requires offset + 2 <= b.Length
    modifies b
    ensures n == 2 && b[..offset + 2] == old(b[..offset]) + [NOP, NOP]
  {
    ghost var head := b[..offset];
    n := EncodeNop(b, offset);
    var m := EncodeNop(b, offset + n);
    n := n + m;
    assert head + [NOP] + [NOP] == head + [NOP, NOP];
  }

  /** The blocks, one after the other, behind the option's kind and length. */
  method WriteBlocks(blocks: seq<Block>, b: array<byte>, offset: nat)
    requires offset + 8 * |blocks| <= b.Length
    modifies b
    ensures b[..offset + 8 * |blocks|] == old(b[..offset]) + BlockBytes(blocks)
  {
    hide Bytes32;
    ghost var head := b[..offset];
    assert blocks[..0] == [] && head + BlockBytes([]) == head;
    for i := 0 to |blocks|
      invariant b[..offset + 8 * i] == head + BlockBytes(blocks[..i])
    {
      PutUint32(b, offset + 8 * i, blocks[i].start);
      PutUint32(b, offset + 8 * i + 4, blocks[i].end);
      OneMoreBlock(blocks, i, head);
    }
    assert blocks[..|blocks|] == blocks;
  }

  lemma OneMoreBlock(blocks: seq<Block>, i: nat, head: seq<byte>)
    requires i < |blocks|
    ensures head + BlockBytes(blocks[..i]) + Bytes32(blocks[i].start) + Bytes32(blocks[i].end)
      == head + BlockBytes(blocks[..i + 1])
  {
    hide Bytes32;
    assert blocks[..i + 1][..i] == blocks[..i];
  }

  /** len(b) - 2 is negative for a buffer of less than two bytes, and Go's division truncates it. */
  method EncodeSackBlocks(blocks: seq<Block>, b: array<byte>, offset: nat) returns (n: nat)
    requires offset <= b.Length
    modifies b
    ensures var l := Fitting(|blocks|, b.Length - offset);
      if l == 0 then n == 0 && b[..] == old(b[..])
      else n == 8 * l + 2 && b[..offset + n] == old(b[..offset]) + SackBytes(blocks[..l])
  {
    hide BlockBytes;
    var l := |blocks|;
    if l > MAX_SACK_BLOCKS {
      l := MAX_SACK_BLOCKS;
    }
    var room := b.Length - offset;
    var ll := if room < 2 then 0 else (room - 2) / 8;
    if ll < l {
      l := ll;
    }
    if l == 0 {
      return 0;
    }
    ghost var head := b[..offset];
    b[offset], b[offset + 1] := SACK, 8 * l + 2;
    assert b[..offset + 2] == head + [SACK, 8 * l + 2];
    WriteBlocks(blocks[..l], b, offset + 2);
    assert head + [SACK, 8 * l + 2] + BlockBytes(blocks[..l]) == head + SackBytes(blocks[..l]);
    return 8 * l + 2;
  }

  /** AddTCPOptionPadding: how many bytes it took to get to a multiple of four. */
  method AddPadding(b: array<byte>, offset: nat) returns (n: nat)
    requires offset + (4 - offset % 4) % 4 <= b.Length
    modifies b
    ensures n < 4 && (offset + n) % 4 == 0 && b[..offset] == old(b[..offset])
    ensures forall i :: offset <= i < offset + n ==> b[i] == NOP
  {
    n := (4 - offset % 4) % 4;
    var i := offset;
    while i < offset + n
      invariant offset <= i <= offset + n && b[..offset] == old(b[..offset])
      invariant forall j :: offset <= j < i ==> b[j] == NOP
    {
      b[i] := NOP;
      i := i + 1;
    }
  }

  /** The options between the MSS and the window scale. */
  method EncodeMiddle(o: SynOptions, b: array<byte>, offset: nat) returns (n: nat)
    requires offset + 12 <= b.Length
    modifies b
    ensures n == |Middle(o)| && b[..offset + n] == old(b[..offset]) + Middle(o)
  {
    hide TsBytes, SackPermittedBytes;
    PieceSizes(o);
    ghost var head := b[..offset];
    n := 0;
    assert head + [] == head;
    if o.ts && o.sackPermitted {
      n := EncodeSackPermittedOption(b, offset);
    } else if o.ts || o.sackPermitted {
      n := EncodeTwoNops(b, offset);
    }
    ghost var first := if o.ts && o.sackPermitted then SackPermittedBytes() else [NOP, NOP];
    if o.ts {
      var k := EncodeTsOption(o.tsVal, o.tsEcr, b, offset + n);
      n := n + k;
      assert head + first + TsBytes(o.tsVal, o.tsEcr) == head + (first + TsBytes(o.tsVal, o.tsEcr));
    } else if o.sackPermitted {
      var k := EncodeSackPermittedOption(b, offset + n);
      n := n + k;
      assert head + first + SackPermittedBytes() == head + (first + SackPermittedBytes());
    }
  }

  lemma PieceSizes(o: SynOptions)
    ensures |MssBytes(o.mss)| == 4 && |TsBytes(o.tsVal, o.tsEcr)| == 10 && |SackPermittedBytes()| == 2
    ensures o.ws >= 0 ==> |WsBytes(o.ws)| == 3
  {
  }

  lemma SynPieces(o: SynOptions)
    ensures SynBytes(o) == MssBytes(o.mss) + Middle(o) + if o.ws >= 0 then [NOP] + WsBytes(o.ws) else []
    ensures |Middle(o)| <= 12 && o.mss % WORD == o.mss
  {
    hide TsBytes, MssBytes, WsBytes, SackPermittedBytes;
    PieceSizes(o);
  }

  // ----- the bytes themselves

  /** Most significant byte first. */
  function BigEndian(v: word32): seq<byte> {
    [v / 0x100_0000, v / 0x1_0000 % 256, v / 0x100 % 256, v % 256]
  }

  lemma Bytes32IsBigEndian(v: word32)
    ensures Bytes32(v) == BigEndian(v)
  {
  }

  /** The options of a SYN as section 3.1 of RFC 793, and RFC 1072, 1323 and 2018, number and lay
    * them out. */
  lemma SynWire(o: SynOptions)
    ensures SynBytes(o) ==
      [2, 4, o.mss / 256, o.mss % 256]
      + (if o.ts && o.sackPermitted then [4, 2, 8, 10] + BigEndian(o.tsVal) + BigEndian(o.tsEcr)
         else if o.ts then [1, 1, 8, 10] + BigEndian(o.tsVal) + BigEndian(o.tsEcr)
         else if o.sackPermitted then [1, 1, 4, 2] else [])
      + (if o.ws >= 0 then [1, 3, 3, o.ws % 256] else [])
  {
    hide Bytes32, BigEndian;
    Bytes32IsBigEndian(o.tsVal);
    Bytes32IsBigEndian(o.tsEcr);
  }

  /** The first n blocks, both edges of each, in order. */
  function BlocksWire(blocks: seq<Block>): seq<byte> {
    if |blocks| == 0 then []
    else BigEndian(blocks[0].start) + BigEndian(blocks[0].end) + BlocksWire(blocks[1..])
  }

  lemma {:induction false} BlocksAppend(blocks: seq<Block>, b: Block)
    ensures BlocksWire(blocks + [b]) == BlocksWire(blocks) + BigEndian(b.start) + BigEndian(b.end)
    decreases |blocks|
  {
    hide BigEndian;
    if |blocks| == 0 {
      assert [b][1..] == [];
      assert BlocksWire([b]) == BigEndian(b.start) + BigEndian(b.end) + [];
    } else {
      assert (blocks + [b])[1..] == blocks[1..] + [b];
      BlocksAppend(blocks[1..], b);
    }
  }

  lemma {:induction false} BlockBytesWire(blocks: seq<Block>)
    ensures BlockBytes(blocks) == BlocksWire(blocks)
    decreases |blocks|
  {
    hide Bytes32, BigEndian;
    if |blocks| > 0 {
      var n := |blocks| - 1;
      BlockBytesWire(blocks[..n]);
      assert blocks == blocks[..n] + [blocks[n]];
      BlocksAppend(blocks[..n], blocks[n]);
      Bytes32IsBigEndian(blocks[n].start);
      Bytes32IsBigEndian(blocks[n].end);
    }
  }

  /** Those of any other segment: the first three blocks beside the times, or four without. */
  lemma SegmentWire(o: Segment)
    ensures var most := if o.ts then 3 else 4; var n := if |o.blocks| < most then |o.blocks| else most;
      SegmentBytes(o) ==
        (if o.ts then [1, 1, 8, 10] + BigEndian(o.tsVal) + BigEndian(o.tsEcr) else [])
        + (if n > 0 then [1, 1, 5, 2 + 8 * n] + BlocksWire(o.blocks[..n]) else [])
  {
    hide Bytes32, BigEndian, BlockBytes, BlocksWire;
    Bytes32IsBigEndian(o.tsVal);
    Bytes32IsBigEndian(o.tsEcr);
    BlockBytesWire(Sent(o));
  }

  /** makeSynOptions: the first n bytes of a pooled buffer, whatever it held before. */
  method MakeSynOptions(o: SynOptions, b: array<byte>) returns (n: nat, panics: bool)
    requires b.Length == MAX_OPTION_SIZE
    modifies b
    ensures !panics && n <= b.Length && b[..n] == SynBytes(o)
  {
    hide TsBytes, MssBytes, WsBytes, SackPermittedBytes, Middle, SynBytes;
    Sizes(o, Segment(false, 0, 0, []));
    PieceSizes(o);
    SynPieces(o);
    n := EncodeMssOption(o.mss, b, 0);
    assert b[..n] == MssBytes(o.mss);
    var k := EncodeMiddle(o, b, n);
    n := n + k;
    if o.ws >= 0 {
      ghost var head := b[..n];
      k := EncodeNop(b, n);
      n := n + k;
      k := EncodeWsOption(o.ws, b, n);
      n := n + k;
      assert head + [NOP] + WsBytes(o.ws) == head + ([NOP] + WsBytes(o.ws));
    } else {
      assert b[..n] + [] == b[..n];
    }
    var delta := AddPadding(b, n);
    panics := delta != 0;
  }

  /** The SACK option behind two NOPs. */
  method EncodeSackPart(o: Segment, b: array<byte>, offset: nat) returns (n: nat)
    requires b.Length == MAX_OPTION_SIZE && offset == (if o.ts then 12 else 0) && |o.blocks| > 0
    modifies b
    ensures n == 4 + 8 * |Sent(o)| && offset + n <= b.Length
    ensures b[..offset + n] == old(b[..offset]) + ([NOP, NOP] + SackBytes(Sent(o)))
  {
    hide SackBytes;
    ghost var head := b[..offset];
    n := EncodeTwoNops(b, offset);
    var k := EncodeSackBlocks(o.blocks, b, offset + n);
    n := n + k;
    assert head + [NOP, NOP] + SackBytes(Sent(o)) == head + ([NOP, NOP] + SackBytes(Sent(o)));
  }

  method EncodeTimes(o: Segment, b: array<byte>) returns (n: nat)
    requires b.Length == MAX_OPTION_SIZE
    modifies b
    ensures n == if o.ts then 12 else 0
    ensures b[..n] == if o.ts then [NOP, NOP] + TsBytes(o.tsVal, o.tsEcr) else []
  {
    hide TsBytes;
    n := 0;
    if o.ts {
      n := EncodeTwoNops(b, 0);
      assert b[..2] == [NOP, NOP];
      var k := EncodeTsOption(o.tsVal, o.tsEcr, b, n);
      n := n + k;
    }
  }

  /** makeOptions, with SACK negotiated; o.blocks are those of the endpoint. */
  method MakeOptions(o: Segment, b: array<byte>) returns (n: nat, panics: bool)
    requires b.Length == MAX_OPTION_SIZE
    modifies b
    ensures !panics && n <= b.Length && b[..n] == SegmentBytes(o)
  {
    hide TsBytes, SackBytes;
    Sizes(SynDefault(), o);
    n := EncodeTimes(o, b);
    ghost var head := b[..n];
    if |o.blocks| > 0 {
      var k := EncodeSackPart(o, b, n);
      n := n + k;
    } else {
      assert head + [] == head;
    }
    var delta := AddPadding(b, n);
    panics := delta != 0;
  }

  // ----- the parsers' loops

  /** ParseSynOptions ends, and stays within its bytes, whatever they are. */
  method ParseSynOptions(opts: seq<byte>, isAck: bool) returns (o: SynOptions)
    ensures o == ParseSyn(opts, isAck)
  {
    hide Read32;
    var limit := |opts|;
    o := SynDefault();
    var i := 0;
    while i < limit
      invariant 0 <= i <= limit
      invariant ParseSyn(opts, isAck) == SynFrom(opts, i, isAck, o)
    {
      if opts[i] == EOL {
        i := limit;
      } else if opts[i] == NOP {
        i := i + 1;
      } else if opts[i] == MSS {
        if i + 4 > limit || opts[i + 1] != 4 {
          return;
        }
        var mss := Pair(opts[i + 2], opts[i + 3]);
        if mss == 0 {
          return;
        }
        o := o.(mss := mss);
        i := i + 4;
      } else if opts[i] == WS {
        if i + 3 > limit || opts[i + 1] != 3 {
          return;
        }
        var ws: int := opts[i + 2];
        if ws > MAX_WND_SCALE {
          ws := MAX_WND_SCALE;
        }
        o := o.(ws := ws);
        i := i + 3;
      } else if opts[i] == TS {
        if i + 10 > limit || opts[i + 1] != 10 {
          return;
        }
        o := o.(ts := true, tsVal := Read32(opts, i + 2), tsEcr := if isAck then Read32(opts, i + 6) else o.tsEcr);
        i := i + 10;
      } else if opts[i] == SACK_PERMITTED {
        if i + 2 > limit || opts[i + 1] != 2 {
          return;
        }
        o := o.(sackPermitted := true);
        i := i + 2;
      } else {
        if i + 2 > limit {
          return;
        }
        var l: int := opts[i + 1];
        if l < 2 || i + l > limit {
          return;
        }
        i := i + l;
      }
    }
  }

  method ParseTcpOptions(b: seq<byte>) returns (o: Segment)
    ensures o == ParseSegment(b)
  {
    hide Read32;
    o := Segment(false, 0, 0, []);
    var limit := |b|;
    var i := 0;
    while i < limit
      invariant 0 <= i <= limit
      invariant ParseSegment(b) == SegmentFrom(b, i, o)
    {
      if b[i] == EOL {
        i := limit;
      } else if b[i] == NOP {
        i := i + 1;
      } else if b[i] == TS {
        if i + 10 > limit || b[i + 1] != 10 {
          return;
        }
        o := o.(ts := true, tsVal := Read32(b, i + 2), tsEcr := Read32(b, i + 6));
        i := i + 10;
      } else if b[i] == SACK {
        if i + 2 > limit {
          return;
        }
        var l: int := b[i + 1];
        if i + l > limit || l < 2 || (l - 2) % 8 != 0 {
          return;
        }
        var blocks := ParseBlocks(b, i + 2, (l - 2) / 8);
        o := o.(blocks := blocks);
        i := i + l;
      } else {
        if i + 2 > limit {
          return;
        }
        var l: int := b[i + 1];
        if l < 2 || i + l > limit {
          return;
        }
        i := i + l;
      }
    }
  }

  method ParseBlocks(b: seq<byte>, i: nat, n: nat) returns (blocks: seq<Block>)
    requires i + 8 * n <= |b|
    ensures blocks == ReadBlocks(b, i, n)
  {
    hide Read32;
    blocks := [];
    for j := 0 to n
      invariant blocks == ReadBlocks(b, i, j)
    {
      var start := Read32(b, i + 8 * j);
      var end := Read32(b, i + 8 * j + 4);
      blocks := blocks + [Block(start, end)];
    }
  }
}
