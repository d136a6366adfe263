/** SYN cookies, protocol/transport/tcp/accept.go: createCookie, isCookieValid, encodeMSS and what
  * handleListenSegment does with an ACK. All arithmetic is on uint32.
  *
  * The hash is an arbitrary function of the connection, a timestamp and the index of a nonce; the
  * clock is given in ticks of 64 seconds.
  */
module SynCookie {
  const MOD32: int := 0x1_0000_0000
  const TICKS: int := 256                 // tsMask + 1
  const SHIFT: int := 0x100_0000          // 1 << tsOffset, and hashMask + 1
  const MAX_TS_DIFF: int := 2

  const MSS_TABLE: seq<int> := [536, 1300, 1440, 1460]

  type word32 = x: int | 0 <= x < 0x1_0000_0000

  function Wrap(x: int): word32 {
    x % MOD32
  }

  function TimeStamp(tick: nat): word32 {
    tick % TICKS
  }

  function CreateCookie<Id>(hash: (Id, word32, nat) -> word32, id: Id, seq': word32, data: word32, tick: nat): word32 {
    var ts := TimeStamp(tick);
    Wrap(hash(id, 0, 0) + seq' + ts * SHIFT + Wrap(hash(id, ts, 1) + data) % SHIFT)
  }

  datatype Option<T> = None | Some(value: T)

  function IsCookieValid<Id>(hash: (Id, word32, nat) -> word32, id: Id, cookie: word32, seq': word32,
    tick: nat): Option<word32> {
    var v := Wrap(cookie - hash(id, 0, 0) - seq');
    var cookieTs := v / SHIFT;
    if Wrap(TimeStamp(tick) - cookieTs) % TICKS > MAX_TS_DIFF then None
    else Some(Wrap(v - hash(id, cookieTs, 1)) % SHIFT)
  }

  lemma WrapPeriodic(x: int, k: int)
    ensures Wrap(x + k * MOD32) == Wrap(x)
  {
    var q := x / MOD32;
    assert x == q * MOD32 + Wrap(x);
    assert x + k * MOD32 == (q + k) * MOD32 + Wrap(x);
  }

  /** What is left of a cookie without the first hash and the sequence number: the timestamp above
    * 24 bits of hash and data. */
  lemma Unmask(h: word32, s: word32, ts: int, low: int)
    requires 0 <= ts < TICKS && 0 <= low < SHIFT
    ensures Wrap(Wrap(h + s + ts * SHIFT + low) - h - s) == ts * SHIFT + low
  {
    var x := h + s + ts * SHIFT + low;
    var q := x / MOD32;
    assert Wrap(x) - h - s == ts * SHIFT + low + (-q) * MOD32;
    WrapPeriodic(ts * SHIFT + low, -q);
  }

  lemma Halves(ts: int, low: int)
    requires 0 <= ts < TICKS && 0 <= low < SHIFT
    ensures (ts * SHIFT + low) / SHIFT == ts && (ts * SHIFT + low) % SHIFT == low
  {
  }

  /** Reducing modulo 2^32 first changes nothing modulo 2^8 or 2^24. */
  lemma WrapDivides(x: int)
    ensures Wrap(x) % TICKS == x % TICKS && Wrap(x) % SHIFT == x % SHIFT
  {
    var q := x / MOD32;
    assert x == q * MOD32 + Wrap(x);
    Periodic(Wrap(x), q * SHIFT, q * TICKS);
  }

  lemma Periodic(x: int, j: int, k: int)
    ensures (x + j * TICKS) % TICKS == x % TICKS && (x + k * SHIFT) % SHIFT == x % SHIFT
  {
    var p, q := x / TICKS, x / SHIFT;
    assert x + j * TICKS == (p + j) * TICKS + x % TICKS;
    assert x + k * SHIFT == (q + k) * SHIFT + x % SHIFT;
  }

  /** The data comes out of the low 24 bits again. */
  lemma DataBack(ts: int, h: word32, data: word32)
    requires 0 <= ts < TICKS
    ensures Wrap(ts * SHIFT + Wrap(h + data) % SHIFT - h) % SHIFT == data % SHIFT
  {
    var low := Wrap(h + data) % SHIFT;
    WrapDivides(h + data);
    var q := (h + data) / SHIFT;
    assert h + data == q * SHIFT + low;
    WrapDivides(ts * SHIFT + low - h);
    assert ts * SHIFT + low - h == data + (ts - q) * SHIFT;
    Periodic(data, 0, ts - q);
  }

  /** The age of a cookie, modulo the timestamp's eight bits. */
  lemma Age(made: nat, now: nat)
    requires made <= now
    ensures Wrap(TimeStamp(now) - TimeStamp(made)) % TICKS == (now - made) % TICKS
  {
    var d := TimeStamp(now) - TimeStamp(made);
    WrapDivides(d);
    var p, q := now / TICKS, made / TICKS;
    assert now - made == d + (p - q) * TICKS;
    Periodic(d, p - q, 0);
  }

  /** A cookie is accepted for the connection and sequence number it was made for exactly when its
    * age in ticks, modulo 256, is at most 2; and then it gives 24 bits of data back. So a cookie expires
    * after three ticks, and comes back to life for three ticks every 256. */
  lemma Accepts<Id>(hash: (Id, word32, nat) -> word32, id: Id, seq': word32, data: word32, made: nat, now: nat)
    requires made <= now
    ensures IsCookieValid(hash, id, CreateCookie(hash, id, seq', data, made), seq', now) ==
      if (now - made) % TICKS <= MAX_TS_DIFF then Some(data % SHIFT) else None
  {
    var ts := TimeStamp(made);
    var low := Wrap(hash(id, ts, 1) + data) % SHIFT;
    Unmask(hash(id, 0, 0), seq', ts, low);
    Halves(ts, low);
    Age(made, now);
    DataBack(ts, hash(id, ts, 1), data);
  }

  // ----- the maximum segment size in a cookie

  function EncodeMss(mss: nat): word32 {
    if mss >= 1460 then 3 else if mss >= 1440 then 2 else if mss >= 1300 then 1 else 0
  }

  method EncodeMSS(mss: nat) returns (code: word32)
    ensures code < |MSS_TABLE|
    // the largest entry that the offer reaches, or the first
    ensures MSS_TABLE[code] <= mss || code == 0
    ensures forall i :: 0 <= i < |MSS_TABLE| && MSS_TABLE[i] <= mss ==> MSS_TABLE[i] <= MSS_TABLE[code]
    ensures code == EncodeMss(mss)
  {
    var i := |MSS_TABLE| - 1;
    assert MSS_TABLE[1] == 1300 && MSS_TABLE[2] == 1440 && MSS_TABLE[3] == 1460;
    while i > 0
      invariant 0 <= i < |MSS_TABLE|
      invariant forall j :: i < j < |MSS_TABLE| ==> mss < MSS_TABLE[j]
      decreases i
    {
      if mss >= MSS_TABLE[i] {
        return i;
      }
      i := i - 1;
    }
    return 0;
  }

  /** What handleListenSegment makes of the final ACK of a handshake: the MSS of the new
    * connection, if there is to be one. The numbers in the segment are one further. */
  function OnAck<Id>(hash: (Id, word32, nat) -> word32, id: Id, ackNumber: word32, seqNumber: word32,
    now: nat): Option<int> {
    match IsCookieValid(hash, id, Wrap(ackNumber - 1), Wrap(seqNumber - 1), now)
    case None => None
    case Some(data) => if data < |MSS_TABLE| then Some(MSS_TABLE[data]) else None
  }

  /** The whole handshake: a client that offered mss and acknowledges the cookie in time gets a
    * connection with the largest size in the table that it can take, or 536. */
  lemma Handshake<Id>(hash: (Id, word32, nat) -> word32, id: Id, clientSeq: word32, mss: nat, made: nat, now: nat)
    requires made <= now
    ensures var cookie := CreateCookie(hash, id, clientSeq, EncodeMss(mss), made);
      OnAck(hash, id, Wrap(cookie + 1), Wrap(clientSeq + 1), now) ==
        if (now - made) % TICKS <= MAX_TS_DIFF then Some(Offered(mss)) else None
  {
    var cookie := CreateCookie(hash, id, clientSeq, EncodeMss(mss), made);
    Back(cookie);
    Back(clientSeq);
    Accepts(hash, id, clientSeq, EncodeMss(mss), made, now);
  }

  /** Any cookie, whatever data it was made with: a connection comes of it exactly when it is young
    * and its data, cut to 24 bits, is one of the table's four indices. */
  lemma OnAckExact<Id>(hash: (Id, word32, nat) -> word32, id: Id, clientSeq: word32, data: word32, made: nat, now: nat)
    requires made <= now
    ensures var cookie := CreateCookie(hash, id, clientSeq, data, made); var d := data % 0x100_0000;
      OnAck(hash, id, Wrap(cookie + 1), Wrap(clientSeq + 1), now) ==
        if (now - made) % 256 <= 2 && d < 4 then
          Some(if d == 0 then 536 else if d == 1 then 1300 else if d == 2 then 1440 else 1460)
        else None
  {
    Back(CreateCookie(hash, id, clientSeq, data, made));
    Back(clientSeq);
    Accepts(hash, id, clientSeq, data, made, now);
    assert MSS_TABLE[0] == 536 && MSS_TABLE[1] == 1300 && MSS_TABLE[2] == 1440 && MSS_TABLE[3] == 1460;
  }

  lemma Back(x: word32)
    ensures Wrap(Wrap(x + 1) - 1) == x
  {
  }

  /** The size a connection gets for an offer: at most the offer, unless that is below 536, and
    * nothing in the table is between them. */
  function Offered(mss: nat): (m: int)
    ensures m in MSS_TABLE && (m <= mss || m == 536)
    ensures forall t :: t in MSS_TABLE && t <= mss ==> t <= m
  {
    assert MSS_TABLE[0] == 536 && MSS_TABLE[1] == 1300 && MSS_TABLE[2] == 1440 && MSS_TABLE[3] == 1460;
    MSS_TABLE[EncodeMss(mss)]
  }
}
