/** Unsigned integers as bytes, least significant first. */
module LittleEndian {
  import opened Common

  function Power256(k: nat): (p: nat)
    ensures p > 0
  {
    if k == 0 then 1 else 256 * Power256(k - 1)
  }

  /** The k low bytes of n. */
  function Encode(n: nat, k: nat): (b: seq<byte>)
    ensures |b| == k
  {
    if k == 0 then [] else [n % 256] + Encode(n / 256, k - 1)
  }

  function Decode(b: seq<byte>): nat {
    if b == [] then 0 else b[0] + 256 * Decode(b[1..])
  }

  /** Decoding gives back a number that fits. */
  lemma {:induction false} DecodeEncode(n: nat, k: nat)
    requires n < Power256(k)
    ensures Decode(Encode(n, k)) == n
  {
    if k > 0 {
      assert n / 256 < Power256(k - 1);
      DecodeEncode(n / 256, k - 1);
      assert Encode(n, k)[1..] == Encode(n / 256, k - 1);
    }
  }

  /** Encoding gives back the bytes a number was decoded from. */
  lemma {:induction false} EncodeDecode(b: seq<byte>)
    ensures Encode(Decode(b), |b|) == b
  {
    if b != [] {
      EncodeDecode(b[1..]);
      assert Decode(b) % 256 == b[0] && Decode(b) / 256 == Decode(b[1..]);
    }
  }

  lemma Powers()
    ensures Power256(2) == 0x1_0000 && Power256(3) == 0x100_0000
    ensures Power256(4) == 0x1_0000_0000 && Power256(8) == 0x1_0000_0000_0000_0000
  {
    assert Power256(1) == 256 && Power256(2) == 0x1_0000 && Power256(3) == 0x100_0000;
    assert Power256(4) == 0x1_0000_0000 && Power256(5) == 0x100_0000_0000;
    assert Power256(6) == 0x1_0000_0000_0000 && Power256(7) == 0x100_0000_0000_0000;
  }

  /** The three-byte forms written out by the driver. */
  lemma ThreeBytes(n: nat, b0: byte, b1: byte, b2: byte)
    ensures Decode([b0, b1, b2]) == b0 + 256 * b1 + 65536 * b2
    ensures n < 0x100_0000 ==> Encode(n, 3) == [n % 256, n / 256 % 256, n / 65536]
  {
    assert [b0, b1, b2][1..] == [b1, b2] && [b1, b2][1..] == [b2] && [b2][1..] == [];
    assert Decode([b2]) == b2 && Decode([b1, b2]) == b1 + 256 * b2;
    assert n / 256 / 256 == n / 65536;
    TwoBytes(n / 256);
    assert Encode(n, 3) == [n % 256] + Encode(n / 256, 2);
  }

  lemma TwoBytes(n: nat)
    ensures Encode(n, 2) == [n % 256, n / 256 % 256]
  {
    assert Encode(n, 2) == [n % 256] + ([n / 256 % 256] + []);
  }

  lemma FourBytes(n: nat)
    ensures Encode(n, 4) == [n % 256, n / 0x100 % 256, n / 0x1_0000 % 256, n / 0x100_0000 % 256]
  {
    assert n / 256 / 256 == n / 0x1_0000 && n / 0x1_0000 / 256 == n / 0x100_0000;
    TwoBytes(n / 0x1_0000);
    assert Encode(n, 4) == [n % 256] + ([n / 256 % 256] + Encode(n / 0x1_0000, 2));
    assert n / 0x1_0000 / 256 % 256 == n / 0x100_0000 % 256;
  }

  /** Two bytes read back as the low sixteen bits. */
  lemma TwoBytesRead(n: nat)
    ensures Decode(Encode(n, 2)) == n % 0x1_0000
  {
    var b: seq<byte> := [n % 256, n / 256 % 256];
    TwoBytes(n);
    assert b[1..] == [n / 256 % 256] && b[1..][1..] == [];
    assert Decode(b[1..]) == n / 256 % 256;
  }
}
