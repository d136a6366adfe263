/** What the two halves of a connection exchange. */
module Packets {
  type byte = x: int | 0 <= x < 256

  /** A segment: sequence number, payload, FIN flag. */
  datatype Packet = Packet(num: int, data: seq<byte>, fin: bool) {
    function LogicalLen(): nat {
      |data| + if fin then 1 else 0
    }

    function End(): int {
      num + LogicalLen()
    }
  }

  /** An acknowledgement: number and 16-bit window field. */
  datatype Ack = Ack(number: int, window: nat)

  const MAX_WINDOW: nat := 0xffff
  const MAX_SCALE: nat := 14

  /** The bytes of several views, one after the other. */
  function Flat(views: seq<seq<byte>>): seq<byte> {
    if |views| == 0 then [] else views[0] + Flat(views[1..])
  }

  lemma {:induction false} FlatAppend(vs: seq<seq<byte>>, v: seq<byte>)
    ensures Flat(vs + [v]) == Flat(vs) + v
    decreases |vs|
  {
    if |vs| == 0 {
      assert vs + [v] == [v];
    } else {
      assert (vs + [v])[1..] == vs[1..] + [v];
      FlatAppend(vs[1..], v);
    }
  }

  function Drop(s: seq<byte>, n: nat): seq<byte> {
    if n <= |s| then s[n..] else []
  }

  function Shr(x: nat, n: nat): nat {
    if n == 0 then x else Shr(x / 2, n - 1)
  }

  function Shl(x: nat, n: nat): nat {
    if n == 0 then x else 2 * Shl(x, n - 1)
  }

  lemma {:induction false} ShlMonotone(x: nat, y: nat, n: nat, k: nat)
    requires x <= y && n <= k
    ensures Shl(x, n) <= Shl(y, k)
    decreases k
  {
    if k > 0 {
      ShlMonotone(x, y, if n == 0 then 0 else n - 1, k - 1);
    }
  }

  /** A window read back from its 16-bit field is less than 2^30. */
  lemma WindowBound(window: nat, scale: nat)
    requires window <= MAX_WINDOW && scale <= MAX_SCALE
    ensures Shl(window, scale) <= 0x3fff_c000
  {
    ShlMonotone(window, MAX_WINDOW, scale, MAX_SCALE);
    assert Shl(0xffff, 14) == 0x3fff_c000;
  }

  /** Scaling down and up again never yields more. */
  lemma {:induction false} ShlShr(x: nat, n: nat)
    ensures Shl(Shr(x, n), n) <= x
    decreases n
  {
    if n > 0 {
      ShlShr(x / 2, n - 1);
    }
  }
}
