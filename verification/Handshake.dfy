/** The signed handshake message and the clock-skew check, with Go's 64-bit integers. */
module Handshake {
  import opened BigEndian

  const TWO63: int := 0x8000_0000_0000_0000
  const TWO64: int := 0x1_0000_0000_0000_0000
  const SKEW_TOLERANCE: int := 300

  type Int64 = n: int | -0x8000_0000_0000_0000 <= n < 0x8000_0000_0000_0000

  /** The int64 that a 64-bit computation of `n` leaves. */
  function Wrap(n: int): (r: Int64)
    ensures (r - n) % TWO64 == 0
  {
    (n + TWO63) % TWO64 - TWO63
  }

  /** The conversion to uint64. */
  function Unsigned(n: Int64): (u: nat)
    ensures u < TWO64
  {
    if n < 0 then n + TWO64 else n
  }

  function Signed(u: nat): Int64
    requires u < TWO64
  {
    if u < TWO63 then u else u - TWO64
  }

  // ---- the message ----

  lemma PowerEight()
    ensures Power(8) == TWO64
  {
    assert Power(4) == 0x1_0000_0000;
    assert Power(8) == 256 * (256 * (256 * (256 * Power(4))));
  }

  /** BuildMsg: nonce, uuid, timestamp as 8 big-endian bytes. */
  method BuildMsg(nonce: seq<Byte>, uuid: seq<Byte>, ts: Int64) returns (msg: seq<Byte>)
    ensures msg == Message(nonce, uuid, ts)
    ensures |msg| == |nonce| + |uuid| + 8 && nonce <= msg && uuid <= msg[|nonce|..]
  {
    msg := [];
    msg := msg + nonce;
    msg := msg + uuid;
    var tsB := new Byte[8];
    var v := Unsigned(ts);
    for i := 8 downto 0
      invariant tsB[i..] == Encode(Unsigned(ts), 8)[i..]
      invariant Encode(v, i) == Encode(Unsigned(ts), 8)[..i]
    {
      assert Encode(v, i + 1)[i] == v % 256 && Encode(v, i + 1)[..i] == Encode(v / 256, i);
      tsB[i] := v % 256;
      assert tsB[i..] == [tsB[i]] + tsB[i + 1..];
      v := v / 256;
    }
    msg := msg + tsB[..];
  }

  /** The timestamp's bytes: two's complement, the most significant byte first. */
  lemma TimestampBytes(nonce: seq<Byte>, uuid: seq<Byte>, ts: Int64, i: nat)
    requires i < 8
    ensures var u := if ts < 0 then ts + 0x1_0000_0000_0000_0000 else ts;
            Power(7 - i) > 0 && Message(nonce, uuid, ts)[|nonce| + |uuid| + i] == u / Power(7 - i) % 256
  {
    EncodeAt(Unsigned(ts), 8, i);
  }

  function Message(nonce: seq<Byte>, uuid: seq<Byte>, ts: Int64): seq<Byte> {
    nonce + uuid + Encode(Unsigned(ts), 8)
  }

  /** Reading a message back when the length of the nonce is known. */
  function Parse(msg: seq<Byte>, nonceLen: nat): (seq<Byte>, seq<Byte>, Int64)
    requires |msg| >= nonceLen + 8
  {
    PowerEight();
    (msg[..nonceLen], msg[nonceLen..|msg| - 8], Signed(Decode(msg[|msg| - 8..])))
  }

  /** A message is read back to exactly what it was built from. */
  lemma ParseMessage(nonce: seq<Byte>, uuid: seq<Byte>, ts: Int64)
    ensures Parse(Message(nonce, uuid, ts), |nonce|) == (nonce, uuid, ts)
  {
    PowerEight();
    var msg := Message(nonce, uuid, ts);
    assert msg[|msg| - 8..] == Encode(Unsigned(ts), 8);
    DecodeEncode(Unsigned(ts), 8);
    assert msg[..|nonce|] == nonce;
    assert msg[|nonce|..|msg| - 8] == uuid;
  }

  /** Two messages are equal exactly when the timestamps and the texts before them are;
      for nonces of one length that leaves no ambiguity between nonce and uuid. */
  lemma MessageInjective(n: seq<Byte>, u: seq<Byte>, t: Int64, n': seq<Byte>, u': seq<Byte>, t': Int64)
    ensures Message(n, u, t) == Message(n', u', t') <==> n + u == n' + u' && t == t'
    ensures |n| == |n'| && Message(n, u, t) == Message(n', u', t') ==> n == n' && u == u' && t == t'
  {
    if Message(n, u, t) == Message(n', u', t') {
      ParseMessage([], n + u, t);
      ParseMessage([], n' + u', t');
      assert [] + (n + u) == n + u && [] + (n' + u') == n' + u';
    }
    if |n| == |n'| && n + u == n' + u' {
      assert n == (n + u)[..|n|] && u == (n + u)[|n|..];
    }
  }

  // ---- the skew check ----

  /** CheckSkew on the server's unix time. */
  method CheckSkew(ts: Int64, now: Int64) returns (ok: bool)
    ensures ok <==> Tolerated(ts, now)
    ensures ok <==> || -300 <= now - ts <= 300
                    || now - ts in {0x8000_0000_0000_0000, -0x8000_0000_0000_0000}
                    || now - ts <= -0x1_0000_0000_0000_0000 + 300 || now - ts >= 0x1_0000_0000_0000_0000 - 300
  {
    var diff: int := Wrap(now - ts);
    if diff < 0 {
      diff := Wrap(-diff);
    }
    SkewExact(ts, now);
    if diff > SKEW_TOLERANCE {
      return false;
    }
    return true;
  }

  function Abs(n: int): nat { if n < 0 then -n else n }

  /** What the check tolerates over all int64 timestamps: a true distance of at most
      300 seconds, and the distances that wrap around: 2^63 exactly, where negation
      overflows, and those within 300 of 2^64. */
  predicate Tolerated(ts: Int64, now: Int64) {
    var d := Abs(now - ts);
    d <= SKEW_TOLERANCE || d == TWO63 || TWO64 - SKEW_TOLERANCE <= d
  }

  lemma SkewExact(ts: Int64, now: Int64)
    ensures var d: int := Wrap(now - ts);
            var e := if d < 0 then Wrap(-d) else d;
            e <= SKEW_TOLERANCE <==> Tolerated(ts, now)
  {
    var n := now - ts;
    if n >= TWO63 {
      assert Wrap(n) == n - TWO64;
    } else if n < -TWO63 {
      assert Wrap(n) == n + TWO64;
    } else {
      assert Wrap(n) == n;
    }
    assert Wrap(TWO63) == -TWO63;
    var d: int := Wrap(n);
    if -TWO63 < d < 0 {
      assert Wrap(-d) == -d;
    }
  }

  /** For a clock between 1970 and 2^62 seconds, the tolerated timestamps are those
      within 300 seconds and the single one 2^63 seconds ago. */
  lemma RealisticClock(ts: Int64, now: Int64)
    requires 0 <= now < 0x4000_0000_0000_0000
    ensures Tolerated(ts, now) <==> -300 <= now - ts <= 300 || ts == now - 0x8000_0000_0000_0000
  {
  }
}
