/** Feeding a hash function with framed byte strings, so that what was fed can be told from the stream. */
module HashFraming {
  import opened ByteStrings

  /** A running digest; what it has been fed decides its final value. */
  class Digest {
    var fed: Bytes

    constructor ()
      ensures fed == []
    {
      fed := [];
    }

    method Update(bytes: Bytes)
      modifies this
      ensures fed == old(fed) + bytes
    {
      fed := fed + bytes;
    }
  }

  /** A length of eight bytes, then the bytes. */
  function Frame(bytes: Bytes): Bytes
  {
    BigEndian(|bytes|, 8) + bytes
  }

  function Frames(list: seq<Bytes>): Bytes
  {
    if list == [] then [] else Frame(list[0]) + Frames(list[1..])
  }

  method WriteFrame(digest: Digest, bytes: Bytes)
    modifies digest
    ensures digest.fed == old(digest.fed) + Frame(bytes)
  {
    digest.Update(BigEndian(|bytes|, 8));
    digest.Update(bytes);
    assert digest.fed == old(digest.fed) + Frame(bytes);
  }

  /** Byte strings whose length the frame can hold. */
  predicate Fits(bytes: Bytes)
  {
    |bytes| < 0x1_0000_0000_0000_0000
  }

  predicate AllFit(list: seq<Bytes>)
  {
    forall bytes :: bytes in list ==> Fits(bytes)
  }

  lemma EightBytes()
    ensures Power256(8) == 0x1_0000_0000_0000_0000
  {
    assert Power256(4) == 0x1_0000_0000;
  }

  /** Eight bytes spell the length, and then come the bytes themselves. */
  lemma FrameIsReadBack(bytes: Bytes)
    requires Fits(bytes)
    ensures |Frame(bytes)| == 8 + |bytes| && Number(Frame(bytes)[..8]) == |bytes| && Frame(bytes)[8..] == bytes
  {
    EightBytes();
    NumberOfBigEndian(|bytes|, 8);
    assert Frame(bytes)[..8] == BigEndian(|bytes|, 8);
  }

  /** The first frame of a stream can be told, and so can what follows it. */
  lemma FrameDetermines(a: Bytes, x: Bytes, b: Bytes, y: Bytes)
    requires Fits(a) && Fits(b) && Frame(a) + x == Frame(b) + y
    ensures a == b && x == y
  {
    var s, t := Frame(a) + x, Frame(b) + y;
    assert s[..8] == BigEndian(|a|, 8) && t[..8] == BigEndian(|b|, 8);
    EightBytes();
    BigEndianDetermines(|a|, |b|, 8);
    assert a == s[8..][..|a|] && b == t[8..][..|b|];
    assert x == s[8 + |a|..] && y == t[8 + |b|..];
  }

  lemma {:induction false} FramesDetermine(a: seq<Bytes>, b: seq<Bytes>)
    requires AllFit(a) && AllFit(b) && Frames(a) == Frames(b)
    ensures a == b
  {
    if a != [] && b != [] {
      FrameDetermines(a[0], Frames(a[1..]), b[0], Frames(b[1..]));
      FramesDetermine(a[1..], b[1..]);
      assert a == [a[0]] + a[1..] && b == [b[0]] + b[1..];
    }
  }

  lemma {:induction false} FramesOfTwo(a: seq<Bytes>, b: seq<Bytes>)
    ensures Frames(a + b) == Frames(a) + Frames(b)
  {
    if a == [] {
      assert a + b == b;
    } else {
      assert (a + b)[1..] == a[1..] + b;
      FramesOfTwo(a[1..], b);
    }
  }
}
