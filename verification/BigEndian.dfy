/** Big-endian encoding of naturals in a fixed number of bytes. */
module BigEndian {

  type Byte = b: int | 0 <= b < 256

  function Power(w: nat): nat {
    if w == 0 then 1 else 256 * Power(w - 1)
  }

  /** The lowest `w` bytes of `n`, most significant first. */
  function Encode(n: nat, w: nat): (bs: seq<Byte>)
    ensures |bs| == w
  {
    if w == 0 then [] else Encode(n / 256, w - 1) + [n % 256]
  }

  function Decode(bs: seq<Byte>): (n: nat)
    ensures n < Power(|bs|)
  {
    if bs == [] then 0 else 256 * Decode(bs[..|bs| - 1]) + bs[|bs| - 1]
  }

  lemma {:induction false} DecodeEncode(n: nat, w: nat)
    requires n < Power(w)
    ensures Decode(Encode(n, w)) == n
  {
    if w > 0 {
      DecodeEncode(n / 256, w - 1);
      assert Encode(n, w)[..w - 1] == Encode(n / 256, w - 1);
    }
  }

  lemma {:induction false} EncodeDecode(bs: seq<Byte>)
    ensures Encode(Decode(bs), |bs|) == bs
  {
    if bs != [] {
      EncodeDecode(bs[..|bs| - 1]);
    }
  }

  lemma PowerPositive(w: nat)
    ensures Power(w) > 0
  {
  }

  lemma DivTwice(n: nat, p: nat)
    requires p > 0
    ensures n / 256 / p == n / (256 * p)
  {
    var q := n / 256 / p;
    var r := n / 256 - q * p;
    assert n == 256 * p * q + (256 * r + n % 256);
    assert 0 <= 256 * r + n % 256 < 256 * p;
    DivUnique(n, 256 * p, q, 256 * r + n % 256);
  }

  lemma Magnitude(m: int, d: int)
    requires m > 0
    ensures d > 0 ==> m * d >= m
    ensures d < 0 ==> m * d <= -m
  {
  }

  lemma DivUnique(n: nat, m: nat, q: nat, r: nat)
    requires m > 0 && n == m * q + r && r < m
    ensures n / m == q
  {
    var d := n / m - q;
    assert n == m * (n / m) + n % m;
    assert m * d == r - n % m;
    Magnitude(m, d);
  }

  /** Byte i of an encoding, counted from the most significant one. */
  lemma {:induction false} EncodeAt(n: nat, w: nat, i: nat)
    requires i < w
    ensures Power(w - 1 - i) > 0 && Encode(n, w)[i] == n / Power(w - 1 - i) % 256
  {
    PowerPositive(w - 1 - i);
    if i < w - 1 {
      EncodeAt(n / 256, w - 1, i);
      PowerPositive(w - 2 - i);
      DivTwice(n, Power(w - 2 - i));
    }
  }

  /** The four bytes of a length. */
  lemma FourBytes(n: nat)
    ensures Encode(n, 4) == [n / 0x100_0000 % 256, n / 0x1_0000 % 256, n / 0x100 % 256, n % 256]
  {
    assert Power(0) == 1 && Power(1) == 0x100 && Power(2) == 0x1_0000 && Power(3) == 0x100_0000;
    EncodeAt(n, 4, 0);
    EncodeAt(n, 4, 1);
    EncodeAt(n, 4, 2);
    EncodeAt(n, 4, 3);
  }

  function Quad(a: int, b: int, c: int, d: int): int {
    a * 0x100_0000 + b * 0x1_0000 + c * 0x100 + d
  }

  lemma DecodeFour(bs: seq<Byte>)
    requires |bs| == 4
    ensures Decode(bs) == Quad(bs[0], bs[1], bs[2], bs[3])
  {
    assert bs[..3][..2] == bs[..2] && bs[..2][..1] == bs[..1] && bs[..1][..0] == [];
    assert Decode(bs[..1]) == bs[0];
    assert Decode(bs[..2]) == Quad(0, 0, bs[0], bs[1]);
    assert Decode(bs[..3]) == Quad(0, bs[0], bs[1], bs[2]);
  }
}
