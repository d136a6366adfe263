/** The receiver's SACK blocks, protocol/transport/tcp/sack.go. */
module Sack {
  import opened Seqnum

  const MAX_BLOCKS: nat := 6

  datatype Block = Block(start: int, end: int)

  // ----- what the two routines compute, on the blocks in use

  predicate Stale(b: Block, nxt: int) {
    LessThanEq(b.end, b.start) || LessThanEq(b.start, nxt)
  }

  predicate Touches(nb: Block, b: Block) {
    LessThanEq(nb.start, b.end) && LessThanEq(b.start, nb.end)
  }

  function Join(nb: Block, b: Block): Block {
    Block(if LessThan(b.start, nb.start) then b.start else nb.start,
          if LessThan(nb.end, b.end) then b.end else nb.end)
  }

  /** One pass over the old blocks: the new block grown by those it touches, and those kept. */
  function Absorb(nb: Block, blocks: seq<Block>, nxt: int): (r: (Block, seq<Block>))
    ensures |r.1| <= |blocks|
    decreases |blocks|
  {
    if |blocks| == 0 then (nb, [])
    else if Stale(blocks[0], nxt) then Absorb(nb, blocks[1..], nxt)
    else if Touches(nb, blocks[0]) then Absorb(Join(nb, blocks[0]), blocks[1..], nxt)
    else
      var rest := Absorb(nb, blocks[1..], nxt);
      (rest.0, [blocks[0]] + rest.1)
  }

  function Update(blocks: seq<Block>, start: int, end: int, nxt: int): (r: seq<Block>)
    ensures |blocks| <= MAX_BLOCKS ==> |r| <= MAX_BLOCKS
  {
    if |blocks| == 0 then [Block(start, end)]
    else
      var (nb, kept) := Absorb(Block(start, end), blocks, nxt);
      if LessThan(nxt, nb.start) then
        [nb] + (if |kept| == MAX_BLOCKS then kept[..MAX_BLOCKS - 1] else kept)
      else kept
  }

  function Trim(blocks: seq<Block>, nxt: int): (r: seq<Block>)
    ensures |r| <= |blocks|
    decreases |blocks|
  {
    if |blocks| == 0 then []
    else if LessThanEq(blocks[0].end, nxt) then Trim(blocks[1..], nxt)
    else
      var b := if LessThan(blocks[0].start, nxt) then blocks[0].(start := nxt) else blocks[0];
      [b] + Trim(blocks[1..], nxt)
  }

  // ----- the array that holds them

  class SackInfo {
    const blocks: array<Block>
    var numBlocks: nat

    ghost predicate Valid()
      reads this, blocks
    {
      blocks.Length == MAX_BLOCKS && numBlocks <= MAX_BLOCKS
    }

    ghost function Blocks(): (s: seq<Block>)
      requires Valid()
      reads this, blocks
    {
      blocks[..numBlocks]
    }

    constructor ()
      ensures Valid() && fresh(blocks) && Blocks() == []
    {
      blocks := new Block[MAX_BLOCKS](_ => Block(0, 0));
      numBlocks := 0;
    }

    /** The loop of UpdateSACKBlocks: merge what touches the new block, compact the rest. */
    method Merge(first: Block, rcvNxt: int) returns (nb: Block, n: nat)
      requires Valid()
      modifies blocks
      ensures n <= numBlocks
      ensures (nb, blocks[..n]) == Absorb(first, old(Blocks()), rcvNxt)
    {
      hide Wire;
      ghost var was, kept: seq<Block> := Blocks(), [];
      nb, n := first, 0;
      var i := 0;
      assert was[0..] == was && kept + Absorb(nb, was, rcvNxt).1 == Absorb(nb, was, rcvNxt).1;
      while i < numBlocks
        invariant 0 <= n <= i <= numBlocks == |was| && n == |kept|
        invariant forall j :: i <= j < numBlocks ==> blocks[j] == was[j]
        invariant forall j :: 0 <= j < n ==> blocks[j] == kept[j]
        invariant Absorb(first, was, rcvNxt) ==
          (Absorb(nb, was[i..], rcvNxt).0, kept + Absorb(nb, was[i..], rcvNxt).1)
      {
        AbsorbStep(nb, was, i, rcvNxt, kept);
        var b := blocks[i];
        if LessThanEq(b.end, b.start) || LessThanEq(b.start, rcvNxt) {
        } else if LessThanEq(nb.start, b.end) && LessThanEq(b.start, nb.end) {
          if LessThan(b.start, nb.start) {
            nb := nb.(start := b.start);
          }
          if LessThan(nb.end, b.end) {
            nb := nb.(end := b.end);
          }
        } else {
          blocks[n] := b;
          n, kept := n + 1, kept + [b];
        }
        i := i + 1;
      }
      assert was[i..] == [] && kept + [] == kept;
      assert blocks[..n] == kept;
    }

    method UpdateSackBlocks(segStart: int, segEnd: int, rcvNxt: int)
      requires Valid()
      modifies this`numBlocks, blocks
      ensures Valid()
      ensures Blocks() == Update(old(Blocks()), segStart, segEnd, rcvNxt)
    {
      hide Wire;
      if numBlocks == 0 {
        blocks[0] := Block(segStart, segEnd);
        numBlocks := 1;
        return;
      }
      var nb, n := Merge(Block(segStart, segEnd), rcvNxt);
      if LessThan(rcvNxt, nb.start) {
        if n == MAX_BLOCKS {
          n := n - 1;
        }
        ghost var kept := blocks[..n];
        var k := n - 1;
        while k >= 0
          invariant -1 <= k < n < MAX_BLOCKS
          invariant forall j :: 0 <= j <= k ==> blocks[j] == kept[j]
          invariant forall j :: k < j < n ==> blocks[j + 1] == kept[j]
        {
          blocks[k + 1] := blocks[k];
          k := k - 1;
        }
        blocks[0] := nb;
        n := n + 1;
        assert blocks[..n] == [nb] + kept;
      }
      numBlocks := n;
    }

    /** One turn of the loop below: block i is kept, with its front cut off, or skipped. */
    method Keep(i: nat, n: nat, rcvNxt: int) returns (m: nat)
      requires Valid() && n <= i < numBlocks
      modifies blocks
      ensures blocks[i + 1..] == old(blocks[i + 1..]) && n <= m <= i + 1
      ensures blocks[..m] == old(blocks[..n]) + Kept(old(blocks[i]), rcvNxt)
    {
      hide LessThan, LessThanEq;
      m := n;
      if !LessThanEq(blocks[i].end, rcvNxt) {
        if LessThan(blocks[i].start, rcvNxt) {
          blocks[i] := blocks[i].(start := rcvNxt);
        }
        blocks[n] := blocks[i];
        m := n + 1;
        assert blocks[..m] == blocks[..n] + [blocks[n]];
      }
    }

    method TrimSackBlockList(rcvNxt: int)
      requires Valid()
      modifies this`numBlocks, blocks
      ensures Valid()
      ensures Blocks() == Trim(old(Blocks()), rcvNxt)
    {
      hide Trim, Kept;
      ghost var was := Blocks();
      ghost var all := blocks[..];
      var n, i := 0, 0;
      assert was[0..] == was && [] + Trim(was, rcvNxt) == Trim(was, rcvNxt);
      while i < numBlocks
        invariant 0 <= n <= i <= numBlocks == |was|
        invariant blocks[i..] == all[i..]
        invariant Trim(was, rcvNxt) == blocks[..n] + Trim(was[i..], rcvNxt)
      {
        TrimStep(was, i, rcvNxt);
        assert blocks[i] == blocks[i..][0] == was[i];
        ghost var kept := blocks[..n];
        n := Keep(i, n, rcvNxt);
        assert kept + (Kept(was[i], rcvNxt) + Trim(was[i + 1..], rcvNxt)) == blocks[..n] + Trim(was[i + 1..], rcvNxt);
        assert blocks[i + 1..] == all[i..][1..];
        i := i + 1;
      }
      TrimNone(rcvNxt);
      assert was[i..] == [] && blocks[..n] + [] == blocks[..n];
      numBlocks := n;
    }
  }

  /** What is left of one block when the numbers before nxt go. */
  function Kept(b: Block, nxt: int): seq<Block> {
    if LessThanEq(b.end, nxt) then [] else [if LessThan(b.start, nxt) then b.(start := nxt) else b]
  }

  lemma TrimNone(nxt: int)
    ensures Trim([], nxt) == []
  {
  }

  lemma TrimStep(was: seq<Block>, i: nat, nxt: int)
    requires i < |was|
    ensures Trim(was[i..], nxt) == Kept(was[i], nxt) + Trim(was[i + 1..], nxt)
  {
    hide LessThan, LessThanEq;
    assert was[i..][1..] == was[i + 1..];
  }

  lemma AbsorbStep(nb: Block, was: seq<Block>, i: nat, nxt: int, kept: seq<Block>)
    requires i < |was|
    ensures var r, rest := Absorb(nb, was[i..], nxt), was[i + 1..];
      && (Stale(was[i], nxt) ==> r == Absorb(nb, rest, nxt))
      && (!Stale(was[i], nxt) && Touches(nb, was[i]) ==> r == Absorb(Join(nb, was[i]), rest, nxt))
      && (!Stale(was[i], nxt) && !Touches(nb, was[i]) ==>
            r.0 == Absorb(nb, rest, nxt).0 && kept + r.1 == kept + [was[i]] + Absorb(nb, rest, nxt).1)
  {
    hide Wire;
    assert was[i..][1..] == was[i + 1..];
  }

  // ----- what the blocks mean, over any run

  ghost predicate In(b: Block, x: int) {
    b.start <= x < b.end
  }

  ghost predicate Covered(blocks: seq<Block>, x: int) {
    exists b :: b in blocks && In(b, x)
  }

  /** A gap of at least one number lies between the two. */
  ghost predicate Apart(a: Block, b: Block) {
    a.end < b.start || b.end < a.start
  }

  ghost predicate AllApart(blocks: seq<Block>) {
    forall i, j :: 0 <= i < j < |blocks| ==> Apart(blocks[i], blocks[j])
  }

  /** Within half the number space of the next expected number. */
  ghost predicate Near(b: Block, nxt: int) {
    nxt <= b.start <= b.end < nxt + HALF
  }

  ghost predicate Good(blocks: seq<Block>, nxt: int) {
    && |blocks| <= MAX_BLOCKS
    && AllApart(blocks)
    && forall b :: b in blocks ==> Near(b, nxt)
  }

  /** The old blocks an update still honours: not empty, and beyond the next expected number. */
  ghost predicate Live(b: Block, nxt: int) {
    nxt < b.start < b.end
  }

  ghost predicate CoveredLive(blocks: seq<Block>, nxt: int, x: int) {
    exists b :: b in blocks && Live(b, nxt) && In(b, x)
  }

  lemma Exact(nb: Block, b: Block, nxt: int)
    requires Near(nb, nxt) && Near(b, nxt)
    ensures Stale(b, nxt) <==> !Live(b, nxt)
    ensures Touches(nb, b) <==> !Apart(nb, b)
    ensures !Apart(nb, b) ==> var j := Join(nb, b);
      && Near(j, nxt) && j.start <= nb.start && j.start <= b.start && nb.end <= j.end && b.end <= j.end
      && (j.start == nb.start || j.start == b.start) && (j.end == nb.end || j.end == b.end)
  {
    LessThanExact(b.end, b.start);
    LessThanExact(b.start, nxt);
    LessThanExact(nb.start, b.end);
    LessThanExact(b.start, nb.end);
    LessThanExact(b.start, nb.start);
    LessThanExact(nb.end, b.end);
  }

  lemma {:induction false} AbsorbGrows(nb: Block, blocks: seq<Block>, nxt: int)
    requires Near(nb, nxt)
    requires forall b :: b in blocks ==> Near(b, nxt)
    ensures var (g, kept) := Absorb(nb, blocks, nxt);
      && Near(g, nxt) && g.start <= nb.start && nb.end <= g.end
      && (nxt < nb.start ==> nxt < g.start)
      && forall b :: b in kept ==> b in blocks && Live(b, nxt)
    decreases |blocks|
  {
    hide Wire;
    if |blocks| > 0 {
      Exact(nb, blocks[0], nxt);
      if Stale(blocks[0], nxt) || !Touches(nb, blocks[0]) {
        AbsorbGrows(nb, blocks[1..], nxt);
      } else {
        AbsorbGrows(Join(nb, blocks[0]), blocks[1..], nxt);
      }
    }
  }

  /** A block apart from the new one and from all old ones stays apart from what has grown. */
  lemma {:induction false} AbsorbApart(nb: Block, blocks: seq<Block>, nxt: int, c: Block)
    requires Near(nb, nxt) && Near(c, nxt) && Apart(c, nb)
    requires forall b :: b in blocks ==> Near(b, nxt) && Apart(c, b)
    ensures Apart(c, Absorb(nb, blocks, nxt).0)
    decreases |blocks|
  {
    hide Wire;
    if |blocks| > 0 {
      assert blocks[0] in blocks;
      Exact(nb, blocks[0], nxt);
      if Stale(blocks[0], nxt) || !Touches(nb, blocks[0]) {
        AbsorbApart(nb, blocks[1..], nxt, c);
      } else {
        AbsorbApart(Join(nb, blocks[0]), blocks[1..], nxt, c);
      }
    }
  }

  /** One pass suffices: what it grows ends up apart from everything it kept, also from the
    * blocks it kept before growing, because the old blocks were apart from each other. */
  lemma {:induction false} AbsorbAllApart(nb: Block, blocks: seq<Block>, nxt: int)
    requires Near(nb, nxt) && AllApart(blocks)
    requires forall b :: b in blocks ==> Near(b, nxt)
    ensures var (g, kept) := Absorb(nb, blocks, nxt); AllApart([g] + kept)
    decreases |blocks|
  {
    hide Wire;
    if |blocks| > 0 {
      var b0, tail := blocks[0], blocks[1..];
      Exact(nb, b0, nxt);
      if Stale(b0, nxt) {
        AbsorbAllApart(nb, tail, nxt);
      } else if Touches(nb, b0) {
        AbsorbAllApart(Join(nb, b0), tail, nxt);
      } else {
        AbsorbAllApart(nb, tail, nxt);
        AbsorbApart(nb, tail, nxt, b0);
        AbsorbGrows(nb, tail, nxt);
        var (g, rest) := Absorb(nb, tail, nxt);
        assert forall b :: b in rest ==> Apart(b0, b);
        InsertApart(g, b0, rest);
      }
    }
  }

  lemma InsertApart(g: Block, b0: Block, rest: seq<Block>)
    requires AllApart([g] + rest) && Apart(b0, g)
    requires forall b :: b in rest ==> Apart(b0, b)
    ensures AllApart([g] + ([b0] + rest))
  {
    var sub, all := [g] + rest, [g] + ([b0] + rest);
    forall i, k | 0 <= i < k < |all|
      ensures Apart(all[i], all[k])
    {
      assert k >= 2 ==> all[k] == sub[k - 1] == rest[k - 2];
      assert i >= 2 ==> all[i] == sub[i - 1];
      assert all[0] == sub[0] && all[1] == b0;
    }
  }

  /** The pass keeps exactly the numbers of the new block and of the live old ones. */
  lemma {:induction false} AbsorbCovers(nb: Block, blocks: seq<Block>, nxt: int, x: int)
    requires Near(nb, nxt)
    requires forall b :: b in blocks ==> Near(b, nxt)
    ensures var (g, kept) := Absorb(nb, blocks, nxt);
      (In(g, x) || Covered(kept, x)) <==> (In(nb, x) || CoveredLive(blocks, nxt, x))
    decreases |blocks|
  {
    hide Wire;
    if |blocks| > 0 {
      var b0, tail := blocks[0], blocks[1..];
      Exact(nb, b0, nxt);
      assert CoveredLive(blocks, nxt, x) <==> (Live(b0, nxt) && In(b0, x)) || CoveredLive(tail, nxt, x);
      if Stale(b0, nxt) {
        AbsorbCovers(nb, tail, nxt, x);
      } else if Touches(nb, b0) {
        AbsorbCovers(Join(nb, b0), tail, nxt, x);
      } else {
        AbsorbCovers(nb, tail, nxt, x);
        var (g, rest) := Absorb(nb, tail, nxt);
        assert Covered([b0] + rest, x) <==> In(b0, x) || Covered(rest, x);
      }
    }
  }

  /** Every live old block is kept, or lies inside what has grown. */
  lemma {:induction false} AbsorbHolds(nb: Block, blocks: seq<Block>, nxt: int, b: Block)
    requires Near(nb, nxt) && b in blocks && Live(b, nxt)
    requires forall b :: b in blocks ==> Near(b, nxt)
    ensures var (g, kept) := Absorb(nb, blocks, nxt); b in kept || (g.start <= b.start && b.end <= g.end)
    decreases |blocks|
  {
    hide Wire;
    var b0, tail := blocks[0], blocks[1..];
    Exact(nb, b0, nxt);
    if b == b0 {
      if Touches(nb, b0) {
        AbsorbGrows(Join(nb, b0), tail, nxt);
      }
    } else {
      AbsorbHolds(if !Stale(b0, nxt) && Touches(nb, b0) then Join(nb, b0) else nb, tail, nxt, b);
    }
  }

  /** The blocks an update leaves, once its tests are read on integers. */
  lemma UpdateShape(blocks: seq<Block>, start: int, end: int, nxt: int)
    requires Good(blocks, nxt) && nxt < start <= end < nxt + HALF
    ensures var (grown, kept) := Absorb(Block(start, end), blocks, nxt);
      && Near(grown, nxt) && nxt < grown.start <= start && end <= grown.end
      && AllApart([grown] + kept) && (forall b :: b in kept ==> b in blocks && Live(b, nxt))
      && Update(blocks, start, end, nxt) ==
           [grown] + (if |kept| == MAX_BLOCKS then kept[..MAX_BLOCKS - 1] else kept)
  {
    hide Wire;
    var nb := Block(start, end);
    AbsorbGrows(nb, blocks, nxt);
    AbsorbAllApart(nb, blocks, nxt);
    LessThanExact(nxt, Absorb(nb, blocks, nxt).0.start);
  }

  /** An out-of-order arrival, possibly empty: the list stays apart and near, and the first
    * block holds the arrival. */
  lemma UpdateKeeps(blocks: seq<Block>, start: int, end: int, nxt: int)
    requires Good(blocks, nxt) && nxt < start <= end < nxt + HALF
    ensures var r := Update(blocks, start, end, nxt);
      && Good(r, nxt) && |r| > 0 && nxt < r[0].start <= start && end <= r[0].end
  {
    hide Wire, Absorb, Update;
    UpdateShape(blocks, start, end, nxt);
    var (grown, kept) := Absorb(Block(start, end), blocks, nxt);
    var r := Update(blocks, start, end, nxt);
    assert forall i :: 0 <= i < |r| ==> r[i] == ([grown] + kept)[i];
  }

  /** Nothing is invented, and nothing is lost unless all six old blocks were kept. */
  lemma UpdateCovers(blocks: seq<Block>, start: int, end: int, nxt: int, x: int)
    requires Good(blocks, nxt) && nxt < start <= end < nxt + HALF
    ensures Covered(Update(blocks, start, end, nxt), x) ==> start <= x < end || CoveredLive(blocks, nxt, x)
    ensures (start <= x < end || CoveredLive(blocks, nxt, x)) && |Absorb(Block(start, end), blocks, nxt).1| < MAX_BLOCKS
      ==> Covered(Update(blocks, start, end, nxt), x)
  {
    hide Wire, Absorb, Update;
    UpdateShape(blocks, start, end, nxt);
    AbsorbCovers(Block(start, end), blocks, nxt, x);
    var (grown, kept) := Absorb(Block(start, end), blocks, nxt);
    var tail := if |kept| == MAX_BLOCKS then kept[..MAX_BLOCKS - 1] else kept;
    assert Covered([grown] + tail, x) <==> In(grown, x) || Covered(tail, x);
  }

  /** A block still beyond the next expected number disappears only by being the last of six
    * that were all kept. */
  lemma UpdateLoses(blocks: seq<Block>, start: int, end: int, nxt: int, b: Block)
    requires Good(blocks, nxt) && nxt < start <= end < nxt + HALF
    requires b in blocks && Live(b, nxt)
    requires forall c :: c in Update(blocks, start, end, nxt) ==> !(c.start <= b.start && b.end <= c.end)
    ensures |blocks| == MAX_BLOCKS && b == blocks[MAX_BLOCKS - 1]
  {
    hide Wire, Absorb, Update;
    var nb := Block(start, end);
    UpdateShape(blocks, start, end, nxt);
    AbsorbHolds(nb, blocks, nxt, b);
    var (grown, kept) := Absorb(nb, blocks, nxt);
    if |kept| == MAX_BLOCKS {
      KeptAll(nb, blocks, nxt);
    }
  }

  lemma {:induction false} KeptAll(nb: Block, blocks: seq<Block>, nxt: int)
    requires |Absorb(nb, blocks, nxt).1| == |blocks|
    ensures Absorb(nb, blocks, nxt).1 == blocks
    decreases |blocks|
  {
    if |blocks| > 0 {
      KeptAll(nb, blocks[1..], nxt);
    }
  }

  lemma {:induction false} TrimShrinks(blocks: seq<Block>, nxt: int, next: int)
    requires nxt <= next < nxt + HALF
    requires forall b :: b in blocks ==> Near(b, nxt)
    ensures forall c :: c in Trim(blocks, next) ==>
      Near(c, next) && exists b :: b in blocks && b.start <= c.start && c.end == b.end
    decreases |blocks|
  {
    hide Wire;
    if |blocks| > 0 {
      assert blocks[0] in blocks;
      TrimShrinks(blocks[1..], nxt, next);
      LessThanExact(blocks[0].end, next);
      LessThanExact(blocks[0].start, next);
    }
  }

  lemma {:induction false} TrimCovers(blocks: seq<Block>, nxt: int, next: int, x: int)
    requires nxt <= next < nxt + HALF
    requires forall b :: b in blocks ==> Near(b, nxt)
    ensures Covered(Trim(blocks, next), x) <==> next <= x && Covered(blocks, x)
    decreases |blocks|
  {
    hide Wire;
    if |blocks| > 0 {
      var b0, tail, r := blocks[0], blocks[1..], Trim(blocks, next);
      assert b0 in blocks;
      TrimCovers(tail, nxt, next, x);
      LessThanExact(b0.end, next);
      LessThanExact(b0.start, next);
      assert Covered(blocks, x) <==> In(b0, x) || Covered(tail, x);
      if !LessThanEq(b0.end, next) {
        assert r[1..] == Trim(tail, next);
        assert Covered(r, x) <==> In(r[0], x) || Covered(r[1..], x);
      }
    }
  }

  lemma {:induction false} TrimApart(blocks: seq<Block>, nxt: int, next: int)
    requires nxt <= next < nxt + HALF && AllApart(blocks)
    requires forall b :: b in blocks ==> Near(b, nxt)
    ensures AllApart(Trim(blocks, next))
    decreases |blocks|
  {
    hide Wire;
    if |blocks| > 0 {
      var b0, tail, r := blocks[0], blocks[1..], Trim(blocks, next);
      assert b0 in blocks;
      TrimApart(tail, nxt, next);
      TrimShrinks(tail, nxt, next);
      LessThanExact(b0.end, next);
      LessThanExact(b0.start, next);
      if !LessThanEq(b0.end, next) {
        var rest := Trim(tail, next);
        assert r == [r[0]] + rest;
        forall c | c in rest
          ensures Apart(r[0], c)
        {
          var o :| o in tail && o.start <= c.start && c.end == o.end;
          assert Apart(b0, o);
        }
      }
    }
  }

  /** The next expected number advances: what was covered at or past it stays covered, and
    * nothing before it is. */
  lemma TrimKeeps(blocks: seq<Block>, nxt: int, next: int)
    requires Good(blocks, nxt) && nxt <= next < nxt + HALF
    ensures Good(Trim(blocks, next), next)
    ensures forall x :: Covered(Trim(blocks, next), x) <==> next <= x && Covered(blocks, x)
  {
    TrimApart(blocks, nxt, next);
    TrimShrinks(blocks, nxt, next);
    forall x
      ensures Covered(Trim(blocks, next), x) <==> next <= x && Covered(blocks, x)
    {
      TrimCovers(blocks, nxt, next, x);
    }
  }

  // ----- runs

  datatype Event = Arrive(start: int, end: int) | Advance(nxt: int)

  datatype State = State(blocks: seq<Block>, nxt: int, got: set<int>)

  /** What can happen next: an arrival beyond the next expected number, or an advance. */
  ghost predicate Possible(s: State, e: Event) {
    match e
    case Arrive(start, end) => s.nxt < start <= end < s.nxt + HALF
    case Advance(nxt) => s.nxt <= nxt < s.nxt + HALF
  }

  function Span(start: int, end: int): (r: set<int>)
    ensures forall x :: x in r <==> start <= x < end
    decreases end - start
  {
    if start >= end then {} else {start} + Span(start + 1, end)
  }

  function Apply(s: State, e: Event): State {
    match e
    case Arrive(start, end) =>
      State(Update(s.blocks, start, end, s.nxt), s.nxt, s.got + Span(start, end))
    case Advance(nxt) =>
      State(Trim(s.blocks, nxt), nxt, s.got)
  }

  function Run(s: State, es: seq<Event>): State
    decreases |es|
  {
    if |es| == 0 then s else Run(Apply(s, es[0]), es[1..])
  }

  ghost predicate PossibleRun(s: State, es: seq<Event>)
    decreases |es|
  {
    |es| == 0 || (Possible(s, es[0]) && PossibleRun(Apply(s, es[0]), es[1..]))
  }

  ghost predicate Sound(s: State) {
    Good(s.blocks, s.nxt) && forall x :: Covered(s.blocks, x) ==> x in s.got && s.nxt <= x
  }

  lemma ApplyKeeps(s: State, e: Event)
    requires Sound(s) && Possible(s, e)
    ensures Sound(Apply(s, e))
  {
    match e
    case Arrive(start, end) =>
      UpdateKeeps(s.blocks, start, end, s.nxt);
      forall x | Covered(Apply(s, e).blocks, x)
        ensures x in Apply(s, e).got && s.nxt <= x
      {
        UpdateCovers(s.blocks, start, end, s.nxt, x);
        if CoveredLive(s.blocks, s.nxt, x) {
          assert Covered(s.blocks, x);
        }
      }
    case Advance(nxt) =>
      TrimKeeps(s.blocks, s.nxt, nxt);
  }

  /** Over any run of arrivals and advances from the empty list. */
  lemma {:induction false} RunKeeps(s: State, es: seq<Event>)
    requires Sound(s) && PossibleRun(s, es)
    ensures Sound(Run(s, es))
    decreases |es|
  {
    if |es| > 0 {
      ApplyKeeps(s, es[0]);
      RunKeeps(Apply(s, es[0]), es[1..]);
    }
  }
}
