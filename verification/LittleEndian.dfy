/** Numbers as bytes, lowest byte first. */
module LittleEndian {
  type Byte = b: int | 0 <= b < 256

  function Pow256(n: nat): (r: nat)
    ensures r > 0
  {
    if n == 0 then 1 else 256 * Pow256(n - 1)
  }

  /** The low `n` bytes of a number. */
  function Bytes(w: nat, n: nat): (b: seq<Byte>)
    ensures |b| == n
  {
    if n == 0 then [] else [w % 256] + Bytes(w / 256, n - 1)
  }

  function Le32(n: nat): (b: seq<Byte>)
    ensures |b| == 4
  {
    Bytes(n, 4)
  }

  function Number(b: seq<Byte>): nat {
    if b == [] then 0
    else
      var low: int := b[0];
      low + 256 * Number(b[1..])
  }

  lemma {:induction false} NumberOfBytes(w: nat, n: nat)
    requires w < Pow256(n)
    ensures Number(Bytes(w, n)) == w
  {
    if n > 0 {
      NumberOfBytes(w / 256, n - 1);
      assert Bytes(w, n)[1..] == Bytes(w / 256, n - 1);
    }
  }

  lemma {:induction false} BytesOfNumber(b: seq<Byte>)
    ensures Number(b) < Pow256(|b|) && Bytes(Number(b), |b|) == b
  {
    if b != [] {
      BytesOfNumber(b[1..]);
      var low: int, rest := b[0], Number(b[1..]);
      assert (low + 256 * rest) % 256 == low && (low + 256 * rest) / 256 == rest;
    }
  }

  lemma Powers()
    ensures Pow256(4) == 0x1_0000_0000 && Pow256(8) == 0x1_0000_0000_0000_0000
  {
    assert Pow256(2) == 0x1_0000;
    assert Pow256(3) == 0x100_0000;
    assert Pow256(4) == 0x1_0000_0000;
    assert Pow256(5) == 256 * Pow256(4) && Pow256(6) == 256 * Pow256(5) && Pow256(7) == 256 * Pow256(6)
      && Pow256(8) == 256 * Pow256(7);
  }

  /** Four bytes, the lowest one first. */
  lemma FourBytes(n: nat)
    requires n < 0x1_0000_0000
    ensures Le32(n) == [n % 256, n / 256 % 256, n / 65536 % 256, n / 16777216]
  {
    assert Bytes(n, 4) == [n % 256] + Bytes(n / 256, 3);
    assert Bytes(n / 256, 3) == [n / 256 % 256] + Bytes(n / 256 / 256, 2);
    assert Bytes(n / 256 / 256, 2) == [n / 256 / 256 % 256] + Bytes(n / 256 / 256 / 256, 1);
    assert Bytes(n / 256 / 256 / 256, 1) == [n / 256 / 256 / 256 % 256] + Bytes(n / 256 / 256 / 256 / 256, 0);
  }
}
