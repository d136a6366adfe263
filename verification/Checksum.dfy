/** The Internet checksum: protocol/header/checksum.go, and the parts of ipv4.go and tcp.go that
  * fill it in. RFC 1071 defines it as the ones' complement sum of 16-bit words.
  */
module Checksum {
  import opened Packets

  const WORD: int := 0x1_0000
  const ONES: int := 0xffff
  const MOD32: int := 0x1_0000_0000
  const MAX_LENGTH: int := 0x2_0000    // in bytes

  type word = x: int | 0 <= x <= 0xffff

  /** Two bytes, the first one high. */
  function Pair(high: byte, low: byte): (w: word) {
    256 * (high as int) + (low as int)
  }

  /** The words of a buffer, added up as integers; an odd last byte is the high half of a word. */
  function Sum16(buf: seq<byte>): (s: nat)
    ensures s <= (|buf| + 1) / 2 * ONES
  {
    if |buf| == 0 then 0
    else if |buf| == 1 then Pair(buf[0], 0)
    else Pair(buf[0], buf[1]) + Sum16(buf[2..])
  }

  /** Addition with end-around carry, section 1 of RFC 1071. */
  function OnesAdd(a: word, b: word): word {
    if a + b >= WORD then a + b - ONES else a + b
  }

  /** What checksum.go's ChecksumCombine computes. */
  function Combine(a: word, b: word): word {
    var v := a + b;
    (v + v / WORD) % WORD
  }

  /** Checksum, whose accumulator is a uint32. */
  function Compute(buf: seq<byte>, initial: word): word {
    var v := (initial + Sum16(buf)) % MOD32;
    Combine(v % WORD, v / WORD)
  }

  /** The number from 1 to ONES, or 0 for 0, that is congruent to x. */
  function Ones(x: nat): word {
    if x == 0 then 0 else (x - 1) % ONES + 1
  }

  // ----- the loop

  lemma {:induction false} Sum16At(buf: seq<byte>, i: nat)
    requires i % 2 == 0 && i <= |buf|
    ensures Sum16(buf) == Sum16(buf[..i]) + Sum16(buf[i..])
    decreases i
  {
    if i == 0 {
      assert buf[..0] == [] && buf[0..] == buf;
    } else {
      Sum16At(buf[2..], i - 2);
      assert buf[..i][2..] == buf[2..][..i - 2] && buf[2..][i - 2..] == buf[i..];
      assert buf[..i][0] == buf[0] && buf[..i][1] == buf[1];
    }
  }

  lemma Sum16Two(buf: seq<byte>, i: nat)
    requires i % 2 == 0 && i + 2 <= |buf|
    ensures Sum16(buf[..i + 2]) == Sum16(buf[..i]) + Pair(buf[i], buf[i + 1])
  {
    var b := buf[..i + 2];
    Sum16At(b, i);
    assert b[..i] == buf[..i] && b[i..] == [buf[i], buf[i + 1]];
    assert [buf[i], buf[i + 1]][2..] == [];
  }

  method ChecksumCombine(a: word, b: word) returns (r: word)
    ensures r == OnesAdd(a, b)
  {
    var v := a + b;
    r := (v + v / WORD) % WORD;
    CombineIsOnesAdd(a, b);
  }

  lemma CombineIsOnesAdd(a: word, b: word)
    ensures Combine(a, b) == OnesAdd(a, b)
  {
  }

  /** A buffer without its odd last byte. */
  function Evens(n: nat): nat {
    n - n % 2
  }

  lemma LastByte(buf: seq<byte>)
    ensures var l := Evens(|buf|); Sum16(buf) == Sum16(buf[..l]) + if l < |buf| then Pair(buf[l], 0) else 0
  {
    var l := Evens(|buf|);
    Sum16At(buf, l);
    if l < |buf| {
      assert buf[l..] == [buf[l]];
    } else {
      assert buf[l..] == [];
    }
  }

  /** No buffer of up to 2^17 bytes overflows the accumulator. */
  method Checksum(buf: seq<byte>, initial: word) returns (r: word)
    ensures r == Compute(buf, initial)
    ensures |buf| <= MAX_LENGTH ==> r == Ones(initial + Sum16(buf))
  {
    hide Sum16, Ones, Pair, Compute, OnesAdd;
    var v: int := initial;
    var l := |buf|;
    if l % 2 != 0 {
      l := l - 1;
      v := v + Pair(buf[l], 0);
    }
    ghost var start := v;
    var i := 0;
    assert Sum16(buf[..0]) == 0 by { SumNone(buf); }
    while i < l
      invariant 0 <= i <= l == Evens(|buf|) && i % 2 == 0 && 0 <= v < MOD32
      invariant v == (start + Sum16(buf[..i])) % MOD32
    {
      Sum16Two(buf, i);
      WrapAdd(start + Sum16(buf[..i]), Pair(buf[i], buf[i + 1]));
      v := (v + Pair(buf[i], buf[i + 1])) % MOD32;
      i := i + 2;
    }
    LastByte(buf);
    ComputeIs(buf, initial, v);
    r := ChecksumCombine(v % WORD, v / WORD);
    if |buf| <= MAX_LENGTH {
      ComputeIsOnes(buf, initial);
    }
  }

  lemma ComputeIs(buf: seq<byte>, initial: word, v: int)
    requires v == (initial + Sum16(buf)) % MOD32
    ensures 0 <= v % WORD < WORD && 0 <= v / WORD < WORD && Compute(buf, initial) == OnesAdd(v % WORD, v / WORD)
  {
    hide Sum16, Combine;
    CombineIsOnesAdd(v % WORD, v / WORD);
  }

  lemma SumNone(buf: seq<byte>)
    ensures Sum16(buf[..0]) == 0
  {
  }

  lemma WrapAdd(x: int, y: int)
    ensures (x % MOD32 + y) % MOD32 == (x + y) % MOD32
  {
    var q := x / MOD32;
    assert x == q * MOD32 + x % MOD32;
    ModPeriodic(x % MOD32 + y, q);
  }

  lemma ModPeriodic(x: int, k: int)
    ensures (x + k * MOD32) % MOD32 == x % MOD32
  {
    var q := x / MOD32;
    assert x + k * MOD32 == (q + k) * MOD32 + x % MOD32;
  }

  // ----- ones' complement arithmetic

  lemma OnesUnique(x: nat, r: word, k: nat)
    requires x == r + k * ONES && (x == 0 <==> r == 0)
    ensures Ones(x) == r
  {
    if x > 0 {
      assert x - 1 == (r - 1) + k * ONES;
    }
  }

  lemma OnesQuotient(x: nat) returns (k: nat)
    ensures x == Ones(x) + k * ONES
  {
    if x == 0 {
      k := 0;
    } else {
      k := (x - 1) / ONES;
    }
  }

  /** The accumulator folded in halves is the ones' complement value. */
  lemma FoldIsOnes(v: nat)
    requires v < MOD32
    ensures Combine(v % WORD, v / WORD) == Ones(v)
  {
    var hi, lo := v / WORD, v % WORD;
    CombineIsOnesAdd(lo, hi);
    OnesUnique(v, OnesAdd(lo, hi), if lo + hi >= WORD then hi + 1 else hi);
  }

  lemma ComputeIsOnes(buf: seq<byte>, initial: word)
    requires |buf| <= MAX_LENGTH
    ensures initial + Sum16(buf) < MOD32
    ensures Compute(buf, initial) == Ones(initial + Sum16(buf))
  {
    hide Sum16, Combine, Ones;
    FoldIsOnes(initial + Sum16(buf));
  }

  lemma OnesAddOnes(x: nat, w: word)
    ensures OnesAdd(Ones(x), w) == Ones(x + w)
  {
    var k := OnesQuotient(x);
    var r := OnesAdd(Ones(x), w);
    OnesUnique(x + w, r, if Ones(x) + w >= WORD then k + 1 else k);
  }

  /** The definition of RFC 1071: the words added one after the other with end-around carry. */
  function Reference(buf: seq<byte>, initial: word): word
    decreases |buf|
  {
    if |buf| == 0 then initial
    else if |buf| == 1 then OnesAdd(initial, Pair(buf[0], 0))
    else Reference(buf[2..], OnesAdd(initial, Pair(buf[0], buf[1])))
  }

  lemma {:induction false} ReferenceIsOnes(buf: seq<byte>, x: nat)
    ensures Reference(buf, Ones(x)) == Ones(x + Sum16(buf))
    decreases |buf|
  {
    if |buf| == 1 {
      OnesAddOnes(x, Pair(buf[0], 0));
    } else if |buf| > 1 {
      OnesAddOnes(x, Pair(buf[0], buf[1]));
      ReferenceIsOnes(buf[2..], x + Pair(buf[0], buf[1]));
    }
  }

  lemma OnesOfWord(w: word)
    ensures Ones(w) == w
  {
  }

  /** The code's deferred carries give the sum that RFC 1071 defines. */
  lemma MeetsDefinition(buf: seq<byte>, initial: word)
    requires |buf| <= MAX_LENGTH
    ensures Compute(buf, initial) == Reference(buf, initial)
  {
    ComputeIsOnes(buf, initial);
    OnesOfWord(initial);
    ReferenceIsOnes(buf, initial);
  }

  // ----- a buffer in pieces

  /** The checksum taken view by view, as sendTCP takes that of a payload. */
  function Chained(views: seq<seq<byte>>, initial: word): word
    decreases |views|
  {
    if |views| == 0 then initial else Chained(views[1..], Compute(views[0], initial))
  }

  lemma SumEven(a: seq<byte>, b: seq<byte>)
    requires |a| % 2 == 0
    ensures Sum16(a + b) == Sum16(a) + Sum16(b)
  {
    Sum16At(a + b, |a|);
    assert (a + b)[..|a|] == a && (a + b)[|a|..] == b;
  }

  lemma OnesPlus(x: nat, y: nat)
    ensures Ones(Ones(x) + y) == Ones(x + y)
  {
    var k := OnesQuotient(x);
    var j := OnesQuotient(Ones(x) + y);
    OnesUnique(x + y, Ones(Ones(x) + y), k + j);
  }

  /** The words of a buffer that begins in the middle of a word. */
  function Sum16Odd(buf: seq<byte>): nat {
    if |buf| == 0 then 0 else (buf[0] as int) + Sum16(buf[1..])
  }

  lemma {:induction false} SumOdd(a: seq<byte>, b: seq<byte>)
    requires |a| % 2 == 1
    ensures Sum16(a + b) == Sum16(a) + Sum16Odd(b)
    decreases |a|
  {
    if |a| == 1 {
      if |b| == 0 {
        assert a + b == a;
      } else {
        assert (a + b)[2..] == b[1..];
      }
    } else {
      assert (a + b)[2..] == a[2..] + b;
      SumOdd(a[2..], b);
    }
  }

  /** Moving every byte to the other half of its word multiplies the sum by 256, modulo ONES. */
  lemma {:induction false} SwapsBytes(buf: seq<byte>) returns (k: nat)
    ensures 256 * Sum16(buf) == Sum16Odd(buf) + k * ONES
    ensures Sum16(buf) == 0 <==> Sum16Odd(buf) == 0
    decreases |buf|
  {
    if |buf| == 0 {
      k := 0;
    } else if |buf| == 1 {
      k := buf[0];
      assert buf[1..] == [];
    } else {
      var j := SwapsBytes(buf[2..]);
      k := j + buf[0];
      OddNext(buf);
    }
  }

  lemma OddNext(buf: seq<byte>)
    requires |buf| >= 2
    ensures Sum16Odd(buf) == Pair(buf[1], buf[0]) + Sum16Odd(buf[2..])
  {
    var t := buf[1..];
    if |t| >= 2 {
      assert t[2..] == buf[2..][1..] && t[1] == buf[2..][0];
    } else {
      assert buf[2..] == [];
    }
  }

  /** The words of a buffer that begins at an even or an odd offset. */
  function SumFrom(buf: seq<byte>, odd: bool): nat {
    if odd then Sum16Odd(buf) else Sum16(buf)
  }

  function Flips(odd: bool, v: seq<byte>): bool {
    odd != (|v| % 2 == 1)
  }

  lemma SumFromSplits(a: seq<byte>, b: seq<byte>, odd: bool)
    ensures SumFrom(a + b, odd) == SumFrom(a, odd) + SumFrom(b, Flips(odd, a))
  {
    hide Sum16;
    if !odd {
      if |a| % 2 == 1 {
        SumOdd(a, b);
      } else {
        SumEven(a, b);
      }
    } else if |a| == 0 {
      assert a + b == b;
    } else {
      assert (a + b)[1..] == a[1..] + b;
      if |a| % 2 == 1 {
        SumEven(a[1..], b);
      } else {
        SumOdd(a[1..], b);
      }
    }
  }

  /** The words of the views that begin at an even offset of the whole, and of those that begin at
    * an odd one; `odd` says where the first begins. */
  function Aligned(views: seq<seq<byte>>, odd: bool): nat {
    if |views| == 0 then 0
    else (if odd then 0 else Sum16(views[0])) + Aligned(views[1..], Flips(odd, views[0]))
  }

  function Misaligned(views: seq<seq<byte>>, odd: bool): nat {
    if |views| == 0 then 0
    else (if odd then Sum16(views[0]) else 0) + Misaligned(views[1..], Flips(odd, views[0]))
  }

  /** View by view, the words are added as if each view began a word. */
  lemma {:induction false} ChainedIs(views: seq<seq<byte>>, initial: word, odd: bool)
    requires |Flat(views)| <= MAX_LENGTH
    ensures Chained(views, initial) == Ones(initial + Aligned(views, odd) + Misaligned(views, odd))
    decreases |views|
  {
    hide Sum16, Compute, Ones;
    OnesOfWord(initial);
    if |views| > 0 {
      var c := Compute(views[0], initial);
      ComputeIsOnes(views[0], initial);
      var rest := Aligned(views[1..], Flips(odd, views[0])) + Misaligned(views[1..], Flips(odd, views[0]));
      ChainedIs(views[1..], c, Flips(odd, views[0]));
      OnesPlus(initial + Sum16(views[0]), rest);
    }
  }

  /** All at once, those at odd offsets are added with their bytes swapped, which multiplies their
    * sum by 256, modulo ONES. */
  lemma {:induction false} FlatIs(views: seq<seq<byte>>, odd: bool) returns (swapped: nat, k: nat)
    ensures SumFrom(Flat(views), odd) == Aligned(views, odd) + swapped
    ensures 256 * Misaligned(views, odd) == swapped + k * ONES && (Misaligned(views, odd) == 0 <==> swapped == 0)
    decreases |views|
  {
    hide Sum16, SumFrom;
    swapped, k := 0, 0;
    if |views| == 0 {
      SumFromNone(odd);
    } else {
      var s, l := FlatIs(views[1..], Flips(odd, views[0]));
      SumFromSplits(views[0], Flat(views[1..]), odd);
      SumFromIs(views[0], odd);
      if odd {
        var j := SwapsBytes(views[0]);
        swapped, k := Sum16Odd(views[0]) + s, j + l;
      } else {
        swapped, k := s, l;
      }
    }
  }

  lemma SumFromNone(odd: bool)
    ensures SumFrom([], odd) == 0
  {
  }

  lemma SumFromIs(buf: seq<byte>, odd: bool)
    ensures SumFrom(buf, odd) == if odd then Sum16Odd(buf) else Sum16(buf)
  {
  }

  /** Any number of views of any lengths: view by view gives the checksum of the whole exactly when
    * the words of the views that begin at an odd offset add up to a multiple of 257. */
  lemma AnyViews(views: seq<seq<byte>>, initial: word)
    requires |Flat(views)| <= MAX_LENGTH
    ensures Chained(views, initial) == Compute(Flat(views), initial) <==> Misaligned(views, false) % 257 == 0
  {
    hide Sum16, Compute, Ones, Chained, Aligned, Misaligned;
    ChainedIs(views, initial, false);
    ComputeIsOnes(Flat(views), initial);
    var swapped, k := FlatIs(views, false);
    SumFromIs(Flat(views), false);
    SameOnes(initial + Aligned(views, false), Misaligned(views, false), swapped, k);
  }

  /** So it does when every view but the last has even length. */
  lemma {:induction false} EvenViews(views: seq<seq<byte>>, initial: word)
    requires |Flat(views)| <= MAX_LENGTH
    requires forall i :: 0 <= i < |views| - 1 ==> |views[i]| % 2 == 0
    ensures Chained(views, initial) == Compute(Flat(views), initial)
  {
    AnyViews(views, initial);
    NoneMisaligned(views);
  }

  lemma {:induction false} NoneMisaligned(views: seq<seq<byte>>)
    requires forall i :: 0 <= i < |views| - 1 ==> |views[i]| % 2 == 0
    ensures Misaligned(views, false) == 0
    decreases |views|
  {
    if |views| == 1 {
      assert views[1..] == [];
    } else if |views| > 1 {
      assert |views[0]| % 2 == 0;
      NoneMisaligned(views[1..]);
    }
  }

  lemma SameOnes(x: nat, s: nat, t: nat, k: nat)
    requires 256 * s == t + k * ONES && (s == 0 <==> t == 0)
    ensures Ones(x + s) == Ones(x + t) <==> s % 257 == 0
  {
    if Ones(x + s) == Ones(x + t) {
      Multiple(x, s, t, k);
    } else if s % 257 == 0 {
      var q := s / 257;
      assert t == s + (q - k) * ONES;
      MoveMultiple(x, s, t, q - k);
    }
  }

  /** 255 s is then a multiple of 65535, which is 255 times 257. */
  lemma Multiple(x: nat, s: nat, t: nat, k: nat)
    requires 256 * s == t + k * ONES && Ones(x + s) == Ones(x + t)
    ensures s % 257 == 0
  {
    hide Ones;
    var i := OnesQuotient(x + s);
    var j := OnesQuotient(x + t);
    TimesOnes(s, t, k, i, j);
  }

  lemma MoveMultiple(x: nat, s: nat, t: nat, d: int)
    requires t == s + d * ONES && (s == 0 <==> t == 0)
    ensures Ones(x + s) == Ones(x + t)
  {
    var i := OnesQuotient(x + s);
    if d >= 0 {
      OnesUnique(x + t, Ones(x + s), i + d);
    } else {
      var j := OnesQuotient(x + t);
      OnesUnique(x + s, Ones(x + t), j - d);
    }
  }

  // ----- filling it in

  function High(w: word): byte { w / 256 }
  function Low(w: word): byte { w % 256 }

  /** PutUint16 at offset i. */
  function Put16(buf: seq<byte>, i: nat, w: word): seq<byte>
    requires i + 2 <= |buf|
  {
    buf[i := High(w)][i + 1 := Low(w)]
  }

  function Not(w: word): word {
    ONES - w
  }

  lemma {:induction false} SumPut16(buf: seq<byte>, i: nat, w: word)
    requires i % 2 == 0 && i + 2 <= |buf|
    ensures Sum16(Put16(buf, i, w)) == Sum16(buf) - Pair(buf[i], buf[i + 1]) + w
    decreases i
  {
    var p := Put16(buf, i, w);
    if i == 0 {
      assert p[2..] == buf[2..];
    } else {
      assert p[2..] == Put16(buf[2..], i - 2, w);
      SumPut16(buf[2..], i - 2, w);
    }
  }

  lemma OnesOfAll(x: nat)
    ensures Ones(x + Not(Ones(x))) == ONES
  {
    var k := OnesQuotient(x);
    OnesUnique(x + Not(Ones(x)), ONES, k);
  }

  /** Section 1 of RFC 1071: with the complement of the sum in a field that was zero, the sum of
    * the whole is all ones. */
  lemma Resums(buf: seq<byte>, i: nat, initial: word)
    requires |buf| <= MAX_LENGTH && i % 2 == 0 && i + 2 <= |buf| && buf[i] == 0 && buf[i + 1] == 0
    ensures Compute(Put16(buf, i, Not(Compute(buf, initial))), initial) == ONES
  {
    hide Sum16, Compute, Ones;
    var c := Compute(buf, initial);
    ComputeIsOnes(buf, initial);
    ComputeIsOnes(Put16(buf, i, Not(c)), initial);
    SumPut16(buf, i, Not(c));
    OnesOfAll(initial + Sum16(buf));
  }

  // ----- TCP

  const TCP_CHECKSUM: nat := 16

  /** CalculateChecksum of a TCP header, on top of the sum of everything else but the length. */
  function TcpCalculate(header: seq<byte>, partial: word, totalLength: word): word {
    Compute(header, Compute([High(totalLength), Low(totalLength)], partial))
  }

  /** The sum sendTCP puts together: pseudo-header, payload view by view, length, header. */
  function TcpSum(pseudo: seq<byte>, views: seq<seq<byte>>, header: seq<byte>, totalLength: word): word {
    TcpCalculate(header, Chained(views, Compute(pseudo, 0)), totalLength)
  }

  /** What the sum of the segment on the wire is made of: everything but the misaligned views, whose
    * words are swapped there. */
  ghost function Rest(pseudo: seq<byte>, views: seq<seq<byte>>, header: seq<byte>, totalLength: word): nat {
    Sum16(pseudo) + Sum16([High(totalLength), Low(totalLength)]) + Sum16(header) + Aligned(views, false)
  }

  lemma TcpSums(pseudo: seq<byte>, views: seq<seq<byte>>, header: seq<byte>, totalLength: word)
    returns (swapped: nat, k: nat)
    requires |pseudo| % 2 == 0 && |header| % 2 == 0 && |pseudo| + 2 + |header| + |Flat(views)| <= MAX_LENGTH
    ensures var x := Rest(pseudo, views, header, totalLength);
      && TcpSum(pseudo, views, header, totalLength) == Ones(x + Misaligned(views, false))
      && Sum16(pseudo + [High(totalLength), Low(totalLength)] + header + Flat(views)) == x + swapped
    ensures var s := Misaligned(views, false); 256 * s == swapped + k * ONES && (s == 0 <==> swapped == 0)
  {
    hide Sum16, Compute, Ones, Chained, Aligned, Misaligned;
    var len, data := [High(totalLength), Low(totalLength)], Flat(views);
    var both := Aligned(views, false) + Misaligned(views, false);
    ComputeIsOnes(pseudo, 0);
    ChainedIs(views, Compute(pseudo, 0), false);
    OnesPlus(Sum16(pseudo), both);
    var c := Chained(views, Compute(pseudo, 0));
    ComputeIsOnes(len, c);
    ComputeIsOnes(header, Compute(len, c));
    OnesPlus(Sum16(pseudo) + both, Sum16(len));
    OnesPlus(Sum16(pseudo) + both + Sum16(len), Sum16(header));
    swapped, k := FlatIs(views, false);
    SumFromIs(data, false);
    SumEven(pseudo, len);
    SumEven(pseudo + len, header);
    SumEven(pseudo + len + header, data);
  }

  /** Taken out of order and in pieces, it is the sum over the segment as it lies on the wire, with
    * the pseudo-header and the length in front, exactly when the words of the views that begin at
    * an odd offset add up to a multiple of 257. */
  lemma TcpSumIsFlat(pseudo: seq<byte>, views: seq<seq<byte>>, header: seq<byte>, totalLength: word)
    requires |pseudo| % 2 == 0 && |header| % 2 == 0 && |pseudo| + 2 + |header| + |Flat(views)| <= MAX_LENGTH
    ensures TcpSum(pseudo, views, header, totalLength) ==
      Compute(pseudo + [High(totalLength), Low(totalLength)] + header + Flat(views), 0)
      <==> Misaligned(views, false) % 257 == 0
  {
    hide Sum16, Compute, Ones, Misaligned, TcpSum, Rest;
    var swapped, k := TcpSums(pseudo, views, header, totalLength);
    ComputeIsOnes(pseudo + [High(totalLength), Low(totalLength)] + header + Flat(views), 0);
    SameOnes(Rest(pseudo, views, header, totalLength), Misaligned(views, false), swapped, k);
  }

  /** What the sender fills in makes the receiver's sum all ones in exactly these cases. */
  lemma TcpResums(pseudo: seq<byte>, views: seq<seq<byte>>, header: seq<byte>, totalLength: word)
    requires |pseudo| % 2 == 0 && |header| % 2 == 0 && |pseudo| + 2 + |header| + |Flat(views)| <= MAX_LENGTH
    requires TCP_CHECKSUM + 2 <= |header| && header[TCP_CHECKSUM] == 0 && header[TCP_CHECKSUM + 1] == 0
    ensures var sent := Put16(header, TCP_CHECKSUM, Not(TcpSum(pseudo, views, header, totalLength)));
      Compute(pseudo + [High(totalLength), Low(totalLength)] + sent + Flat(views), 0) == ONES
      <==> Misaligned(views, false) % 257 == 0
  {
    hide Sum16, Compute, Ones, Misaligned, TcpSum, Rest, Put16;
    var len, data := [High(totalLength), Low(totalLength)], Flat(views);
    var swapped, k := TcpSums(pseudo, views, header, totalLength);
    var flat := pseudo + len + header + data;
    var c := Not(TcpSum(pseudo, views, header, totalLength));
    var at := |pseudo| + 2 + TCP_CHECKSUM;
    PutInside(pseudo + len, header, data, TCP_CHECKSUM, c);
    SumPut16(flat, at, c);
    PutLength(flat, at, c);
    ComputeIsOnes(Put16(flat, at, c), 0);
    StoredRight(Rest(pseudo, views, header, totalLength), Misaligned(views, false), swapped, k);
  }

  lemma PutLength(buf: seq<byte>, i: nat, w: word)
    requires i + 2 <= |buf|
    ensures |Put16(buf, i, w)| == |buf|
  {
  }

  lemma StoredRight(x: nat, s: nat, t: nat, k: nat)
    requires 256 * s == t + k * ONES && (s == 0 <==> t == 0)
    ensures Ones(x + t + Not(Ones(x + s))) == ONES <==> s % 257 == 0
  {
    SameOnes(x, s, t, k);
    if s % 257 == 0 {
      OnesOfAll(x + t);
    } else if Ones(x + t + Not(Ones(x + s))) == ONES {
      StoredMultiple(x, s, t, k);
    }
  }

  lemma StoredMultiple(x: nat, s: nat, t: nat, k: nat)
    requires 256 * s == t + k * ONES && Ones(x + t + Not(Ones(x + s))) == ONES
    ensures s % 257 == 0
  {
    hide Ones;
    var i := OnesQuotient(x + s);
    var j := OnesQuotient(x + t + Not(Ones(x + s)));
    TimesOnes(s, t, k, i, j);
  }

  lemma TimesOnes(s: int, t: int, k: int, i: int, j: int)
    requires 256 * s == t + k * ONES && t - s == (j - i) * ONES
    ensures s % 257 == 0
  {
    assert s == (k + j - i) * 257;
  }

  lemma PutInside(front: seq<byte>, header: seq<byte>, data: seq<byte>, i: nat, c: word)
    requires i + 2 <= |header|
    ensures Put16(front + header + data, |front| + i, c) == front + Put16(header, i, c) + data
  {
  }

  // ----- IPv4

  const TOTAL_LENGTH: nat := 2
  const IP_CHECKSUM: nat := 10
  const IP_MINIMUM: nat := 20

  /** HeaderLength: four times the low half of the first byte. */
  function HeaderLength(b: seq<byte>): nat
    requires |b| > 0
  {
    (b[0] % 16) * 4
  }

  predicate IsHeader(b: seq<byte>) {
    |b| > 0 && IP_MINIMUM <= HeaderLength(b) <= |b|
  }

  function CalculateChecksum(b: seq<byte>): word
    requires IsHeader(b)
  {
    Compute(b[..HeaderLength(b)], 0)
  }

  /** The header from scratch: the length set, the checksum of what is then there complemented. */
  function Encoded(b: seq<byte>, totalLength: word): seq<byte>
    requires IsHeader(b)
  {
    var h := Put16(Put16(b, TOTAL_LENGTH, totalLength), IP_CHECKSUM, 0);
    Put16(h, IP_CHECKSUM, Not(CalculateChecksum(h)))
  }

  /** The checksum without the two fields EncodePartial fills in. */
  function Partial(b: seq<byte>): word
    requires IsHeader(b)
  {
    CalculateChecksum(Put16(Put16(b, TOTAL_LENGTH, 0), IP_CHECKSUM, 0))
  }

  lemma HeadersAlike(b: seq<byte>, i: nat, w: word)
    requires IsHeader(b) && 0 < i && i + 2 <= IP_MINIMUM
    ensures var p := Put16(b, i, w);
      IsHeader(p) && HeaderLength(p) == HeaderLength(b)
      && p[..HeaderLength(p)] == Put16(b[..HeaderLength(b)], i, w)
  {
  }

  lemma PartialSum(b: seq<byte>, totalLength: word)
    requires IsHeader(b)
    ensures IsHeader(Put16(Put16(b, TOTAL_LENGTH, totalLength), IP_CHECKSUM, 0))
    ensures Compute([High(totalLength), Low(totalLength)], Partial(b))
      == CalculateChecksum(Put16(Put16(b, TOTAL_LENGTH, totalLength), IP_CHECKSUM, 0))
  {
    hide Sum16, Compute, Ones, Put16, Pair;
    var n := HeaderLength(b);
    var h := b[..n];
    HeadersAlike(b, TOTAL_LENGTH, totalLength);
    HeadersAlike(Put16(b, TOTAL_LENGTH, totalLength), IP_CHECKSUM, 0);
    HeadersAlike(b, TOTAL_LENGTH, 0);
    HeadersAlike(Put16(b, TOTAL_LENGTH, 0), IP_CHECKSUM, 0);
    var h0 := Put16(h, TOTAL_LENGTH, 0);
    var h1 := Put16(h, TOTAL_LENGTH, totalLength);
    PutSame(h, totalLength);
    SumPut16(h, TOTAL_LENGTH, 0);
    SumPut16(h, TOTAL_LENGTH, totalLength);
    SumPut16(h0, IP_CHECKSUM, 0);
    SumPut16(h1, IP_CHECKSUM, 0);
    ComputeIsOnes(Put16(h0, IP_CHECKSUM, 0), 0);
    ComputeIsOnes(Put16(h1, IP_CHECKSUM, 0), 0);
    ComputeIsOnes([High(totalLength), Low(totalLength)], Partial(b));
    SumOfWord(totalLength);
    OnesPlus(Sum16(Put16(h0, IP_CHECKSUM, 0)), totalLength);
  }

  lemma PutSame(h: seq<byte>, w: word)
    requires |h| >= IP_MINIMUM
    ensures var h0, h1 := Put16(h, TOTAL_LENGTH, 0), Put16(h, TOTAL_LENGTH, w);
      |h0| == |h1| == |h| && h0[IP_CHECKSUM] == h1[IP_CHECKSUM] && h0[IP_CHECKSUM + 1] == h1[IP_CHECKSUM + 1]
  {
  }

  lemma SumOfWord(w: word)
    ensures Sum16([High(w), Low(w)]) == w
  {
    assert [High(w), Low(w)][2..] == [];
  }

  /** From a correct partial checksum, what EncodePartial leaves is the header that a computation
    * from scratch leaves, and it sums to all ones. */
  lemma PartialIsEnough(b: seq<byte>, totalLength: word)
    requires IsHeader(b)
    ensures var e := PartlyEncoded(b, Partial(b), totalLength);
      e == Encoded(b, totalLength) && IsHeader(e) && CalculateChecksum(e) == ONES
  {
    hide Compute, Sum16;
    PartialSum(b, totalLength);
    var zeroed := Put16(Put16(b, TOTAL_LENGTH, totalLength), IP_CHECKSUM, 0);
    var c := Not(CalculateChecksum(zeroed));
    assert PartlyEncoded(b, Partial(b), totalLength) == Put16(zeroed, IP_CHECKSUM, c);
    HeadersAlike(zeroed, IP_CHECKSUM, c);
    Resums(zeroed[..HeaderLength(zeroed)], IP_CHECKSUM, 0);
  }

  /** The length, and over the old checksum the complement of the partial one with the length. */
  function PartlyEncoded(b: seq<byte>, partial: word, totalLength: word): seq<byte>
    requires |b| >= IP_CHECKSUM + 2
  {
    var sum := Compute([High(totalLength), Low(totalLength)], partial);
    Put16(Put16(b, TOTAL_LENGTH, totalLength), IP_CHECKSUM, Not(sum))
  }

  /** EncodePartial, in place. */
  method EncodePartial(b: array<byte>, partialChecksum: word, totalLength: word)
    requires b.Length >= IP_CHECKSUM + 2
    modifies b
    ensures b[..] == PartlyEncoded(old(b[..]), partialChecksum, totalLength)
    ensures IsHeader(old(b[..])) && partialChecksum == Partial(old(b[..])) ==>
      b[..] == Encoded(old(b[..]), totalLength) && IsHeader(b[..]) && CalculateChecksum(b[..]) == ONES
  {
    hide Compute, Sum16, Put16;
    ghost var was := b[..];
    SetWord(b, TOTAL_LENGTH, totalLength);
    var checksum := Checksum([High(totalLength), Low(totalLength)], partialChecksum);
    SetWord(b, IP_CHECKSUM, Not(checksum));
    if IsHeader(was) {
      PartialIsEnough(was, totalLength);
    }
  }

  /** PutUint16 */
  method SetWord(b: array<byte>, i: nat, w: word)
    requires i + 2 <= b.Length
    modifies b
    ensures b[..] == Put16(old(b[..]), i, w)
  {
    b[i] := High(w);
    b[i + 1] := Low(w);
  }
}
