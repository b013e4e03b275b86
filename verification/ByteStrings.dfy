/** Bytes and the numbers they spell, most significant byte first. */
module ByteStrings {
  type Byte = n: nat | n < 256

  type Bytes = seq<Byte>

  function Number(bytes: Bytes): nat
  {
    if bytes == [] then 0 else Number(bytes[..|bytes| - 1]) * 256 + bytes[|bytes| - 1]
  }

  function Power256(n: nat): nat
  {
    if n == 0 then 1 else 256 * Power256(n - 1)
  }

  lemma {:induction false} NumberIsBounded(bytes: Bytes)
    ensures Number(bytes) < Power256(|bytes|)
  {
    if bytes != [] {
      NumberIsBounded(bytes[..|bytes| - 1]);
    }
  }

  lemma NumberOfOneMore(bytes: Bytes, i: nat)
    requires i < |bytes|
    ensures Number(bytes[..i + 1]) == Number(bytes[..i]) * 256 + bytes[i]
  {
    assert bytes[..i + 1][..i] == bytes[..i];
  }

  /** A number in k bytes; more significant ones are cut off. */
  function BigEndian(n: nat, k: nat): (bytes: Bytes)
    ensures |bytes| == k
  {
    if k == 0 then [] else BigEndian(n / 256, k - 1) + [n % 256]
  }

  lemma {:induction false} NumberOfBigEndian(n: nat, k: nat)
    requires n < Power256(k)
    ensures Number(BigEndian(n, k)) == n
  {
    if k > 0 {
      NumberOfBigEndian(n / 256, k - 1);
      assert BigEndian(n, k)[..k - 1] == BigEndian(n / 256, k - 1);
    }
  }

  /** The most significant byte comes first. */
  lemma {:induction false} FirstByteWeighsMost(first: Byte, rest: Bytes)
    ensures Number([first] + rest) == first * Power256(|rest|) + Number(rest)
  {
    var all := [first] + rest;
    if rest == [] {
      assert all[..0] == [];
    } else {
      var shorter := rest[..|rest| - 1];
      FirstByteWeighsMost(first, shorter);
      assert all[..|all| - 1] == [first] + shorter;
      assert first * Power256(|rest|) == 256 * (first * Power256(|shorter|));
    }
  }

  /** Two numbers that fit and are spelled alike are the same. */
  lemma BigEndianDetermines(m: nat, n: nat, k: nat)
    requires m < Power256(k) && n < Power256(k) && BigEndian(m, k) == BigEndian(n, k)
    ensures m == n
  {
    NumberOfBigEndian(m, k);
    NumberOfBigEndian(n, k);
  }

  function Ascii(s: string): (bytes: Bytes)
    ensures |bytes| == |s| && forall i :: 0 <= i < |s| ==> bytes[i] == s[i] as int % 256
  {
    seq(|s|, i requires 0 <= i < |s| => s[i] as int % 256)
  }

  function Zeros(n: nat): Bytes
  {
    seq(n, i => 0)
  }
}
