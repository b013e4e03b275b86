/** Identifiers whose text sorts by creation time: 48 bits of milliseconds, 80 random bits, Crockford base 32. */
module Ulid {
  import opened ByteStrings
  import opened Text

  const CROCKFORD := "0123456789ABCDEFGHJKMNPQRSTVWXYZ"

  const LENGTH := 26
  const TWO_48 := 0x1_0000_0000_0000
  const TWO_80 := 0x1_0000_0000_0000_0000_0000
  const TWO_128 := 0x1_0000_0000_0000_0000_0000_0000_0000_0000

  predicate InAlphabet(s: string)
  {
    forall i :: 0 <= i < |s| ==> s[i] in CROCKFORD
  }

  predicate IsUlid(s: string)
  {
    |s| == LENGTH && '0' <= s[0] <= '7' && InAlphabet(s)
  }

  function Digit(n: nat): char
    requires n < 32
  {
    CROCKFORD[n]
  }

  /** The position of a letter in the alphabet; 0 for any other character. */
  function DigitValue(c: char): (n: nat)
    ensures n < 32
  {
    if '0' <= c <= '9' then (c - '0') as nat
    else if 'A' <= c <= 'H' then (c - 'A') as nat + 10
    else if 'J' <= c <= 'K' then (c - 'J') as nat + 18
    else if 'M' <= c <= 'N' then (c - 'M') as nat + 20
    else if 'P' <= c <= 'T' then (c - 'P') as nat + 22
    else if 'V' <= c <= 'Z' then (c - 'V') as nat + 27
    else 0
  }

  type Place = n: nat | n < 32

  /** The last k places of a value in base 32. */
  function Places(value: nat, k: nat): (p: seq<Place>)
    ensures |p| == k
  {
    if k == 0 then [] else Places(value / 32, k - 1) + [value % 32]
  }

  function Total(p: seq<Place>): nat
  {
    if p == [] then 0 else Total(p[..|p| - 1]) * 32 + p[|p| - 1]
  }

  function Power32(k: nat): nat
  {
    if k == 0 then 1 else 32 * Power32(k - 1)
  }

  /** The text of a value in k digits. */
  function Digits(value: nat, k: nat): (s: string)
    ensures |s| == k
  {
    Letters(Places(value, k))
  }

  /** The value a text of digits stands for. */
  function Value(s: string): nat
  {
    Total(Read(s))
  }

  function Letters(p: seq<Place>): (s: string)
    ensures |s| == |p| && forall i :: 0 <= i < |p| ==> s[i] == Digit(p[i])
  {
    seq(|p|, i requires 0 <= i < |p| => Digit(p[i]))
  }

  function Read(s: string): (p: seq<Place>)
    ensures |p| == |s| && forall i :: 0 <= i < |s| ==> p[i] == DigitValue(s[i])
  {
    seq(|s|, i requires 0 <= i < |s| => DigitValue(s[i]))
  }

  lemma DigitAndValue(n: nat)
    requires n < 32
    ensures DigitValue(Digit(n)) == n && Digit(n) in CROCKFORD
  {
  }

  lemma ValueAndDigit(c: char)
    requires c in CROCKFORD
    ensures Digit(DigitValue(c)) == c
  {
    var i :| 0 <= i < 32 && CROCKFORD[i] == c;
    DigitAndValue(i);
  }

  /** The digits and the capital letters, without those that look like others. */
  lemma AlphabetSpelledOut(c: char)
    ensures c in CROCKFORD <==>
      ('0' <= c <= '9' || 'A' <= c <= 'Z') && c != 'I' && c != 'L' && c != 'O' && c != 'U'
  {
    if ('0' <= c <= '9' || 'A' <= c <= 'Z') && c != 'I' && c != 'L' && c != 'O' && c != 'U' {
      assert CROCKFORD[DigitValue(c)] == c;
    }
    if c in CROCKFORD {
      var i :| 0 <= i < 32 && CROCKFORD[i] == c;
      CapitalsAndDigits(i);
    }
  }

  lemma CapitalsAndDigits(n: nat)
    requires n < 32
    ensures '0' <= Digit(n) <= '9' || 'A' <= Digit(n) <= 'Z'
    ensures Digit(n) != 'I' && Digit(n) != 'L' && Digit(n) != 'O' && Digit(n) != 'U'
  {
  }

  /** An identifier has 26 letters of the alphabet, the first of which holds only three bits. */
  lemma IdentifierSpelledOut(s: string)
    ensures IsUlid(s) <==>
      && |s| == 26 && '0' <= s[0] <= '7'
      && forall c :: c in s ==>
           ('0' <= c <= '9' || 'A' <= c <= 'Z') && c != 'I' && c != 'L' && c != 'O' && c != 'U'
  {
    forall c ensures c in CROCKFORD <==>
      ('0' <= c <= '9' || 'A' <= c <= 'Z') && c != 'I' && c != 'L' && c != 'O' && c != 'U'
    {
      AlphabetSpelledOut(c);
    }
    assert InAlphabet(s) <==> forall c :: c in s ==> c in CROCKFORD;
  }

  lemma DigitsGrow(m: nat, n: nat)
    requires m < n < 32
    ensures Digit(m) < Digit(n)
  {
  }

  lemma LettersReadBack(p: seq<Place>)
    ensures Read(Letters(p)) == p
  {
    forall i | 0 <= i < |p| ensures Read(Letters(p))[i] == p[i] {
      DigitAndValue(p[i]);
    }
  }

  lemma ReadAgain(s: string)
    requires InAlphabet(s)
    ensures Letters(Read(s)) == s
  {
    forall i | 0 <= i < |s| ensures Letters(Read(s))[i] == s[i] {
      ValueAndDigit(s[i]);
    }
  }

  lemma {:induction false} TotalOfPlaces(value: nat, k: nat)
    requires value < Power32(k)
    ensures Total(Places(value, k)) == value
  {
    if k > 0 {
      TotalOfPlaces(value / 32, k - 1);
      assert Places(value, k)[..k - 1] == Places(value / 32, k - 1);
    }
  }

  lemma {:induction false} PlacesOfTotal(p: seq<Place>)
    ensures Total(p) < Power32(|p|) && Places(Total(p), |p|) == p
  {
    if p != [] {
      var n := |p| - 1;
      PlacesOfTotal(p[..n]);
      assert p == p[..n] + [p[n]];
    }
  }

  /** The first place in which two values differ orders them. */
  lemma {:induction false} PlacesKeepOrder(v: nat, w: nat, k: nat) returns (j: nat)
    requires v < w < Power32(k)
    ensures j < k && Places(v, k)[..j] == Places(w, k)[..j] && Places(v, k)[j] < Places(w, k)[j]
  {
    var a, b := Places(v / 32, k - 1), Places(w / 32, k - 1);
    if v / 32 == w / 32 {
      j := k - 1;
    } else {
      j := PlacesKeepOrder(v / 32, w / 32, k - 1);
      assert (a + [v % 32])[..j] == a[..j] && (b + [w % 32])[..j] == b[..j];
    }
  }

  lemma SameLetters(a: seq<Place>, b: seq<Place>, j: nat)
    requires j <= |a| && j <= |b| && a[..j] == b[..j]
    ensures Letters(a)[..j] == Letters(b)[..j]
  {
    forall i | 0 <= i < j ensures Letters(a)[..j][i] == Letters(b)[..j][i] {
      assert a[i] == a[..j][i] && b[i] == b[..j][i];
    }
  }

  /** Text order is numeric order. */
  lemma DigitsKeepOrder(v: nat, w: nat, k: nat)
    requires v < w < Power32(k)
    ensures Less(Digits(v, k), Digits(w, k))
  {
    hide Less, Places;
    var j := PlacesKeepOrder(v, w, k);
    var a, b := Places(v, k), Places(w, k);
    SameLetters(a, b, j);
    DigitsGrow(a[j], b[j]);
    FirstDifferenceDecides(Letters(a), Letters(b), j);
  }

  lemma PowersOf32()
    ensures 8 * Power32(25) == TWO_128 && Power32(26) == 4 * TWO_128
  {
    assert Power32(5) == 0x200_0000;
    assert Power32(10) == 0x4_0000_0000_0000;
    assert Power32(15) == 0x800_0000_0000_0000_0000;
    assert Power32(20) == 0x10_0000_0000_0000_0000_0000_0000;
    assert Power32(25) == 0x2000_0000_0000_0000_0000_0000_0000_0000;
  }

  lemma MultiplyKeepsOrder(a: nat, b: nat, p: nat)
    requires a <= b
    ensures a * p <= b * p
  {
  }

  lemma ThirtyTwice(d: nat, p: nat)
    ensures d * (32 * p) == 32 * (d * p)
  {
  }

  /** The first place fixes the value up to its weight. */
  lemma {:induction false} LeadingPlace(p: seq<Place>)
    requires p != []
    ensures p[0] * Power32(|p| - 1) <= Total(p)
    ensures Total(p) < (p[0] + 1) * Power32(|p| - 1)
  {
    var n, d: nat := |p| - 1, p[0];
    if n > 0 {
      LeadingPlace(p[..n]);
      ThirtyTwice(d, Power32(n - 1));
      ThirtyTwice(d + 1, Power32(n - 1));
    } else {
      assert p[..0] == [];
    }
  }

  /** Below eight times the weight of the first place, the first place is below eight, and the other way round. */
  lemma LeadingPlaceBelowEight(p: seq<Place>)
    requires p != []
    ensures Total(p) < 8 * Power32(|p| - 1) <==> p[0] < 8
  {
    LeadingPlace(p);
    if p[0] < 8 {
      var next: nat := p[0] + 1;
      MultiplyKeepsOrder(next, 8, Power32(|p| - 1));
    } else {
      MultiplyKeepsOrder(8, p[0], Power32(|p| - 1));
    }
  }

  lemma FirstEightDigits(n: nat)
    requires n < 32
    ensures '0' <= Digit(n) <= '7' <==> n < 8
  {
  }

  lemma LeadingLetter(s: string)
    requires s != "" && '0' <= s[0] <= '7'
    ensures Read(s)[0] < 8
  {
  }

  lemma TextOfItsValue(s: string)
    requires InAlphabet(s)
    ensures s == Digits(Value(s), |s|)
  {
    PlacesOfTotal(Read(s));
    ReadAgain(s);
  }

  lemma ValueFits(s: string)
    requires s != "" && '0' <= s[0] <= '7'
    ensures Value(s) < 8 * Power32(|s| - 1)
  {
    LeadingLetter(s);
    LeadingPlaceBelowEight(Read(s));
  }

  lemma EncodingIsIdentifier(value: nat, k: nat)
    requires k == LENGTH && value < 8 * Power32(k - 1)
    ensures IsUlid(Digits(value, k)) && Value(Digits(value, k)) == value
  {
    var p := Places(value, k);
    TotalOfPlaces(value, k);
    LettersReadBack(p);
    LeadingPlaceBelowEight(p);
    FirstEightDigits(p[0]);
    forall i | 0 <= i < k ensures Letters(p)[i] in CROCKFORD {
      DigitAndValue(p[i]);
    }
  }

  /** The text of a value as an identifier. */
  function Encoded(value: nat): string
  {
    Digits(value, LENGTH)
  }

  /** The length as a variable, so that a text of that many digits is not spelled out. */
  lemma EncodedAs(value: nat) returns (k: nat)
    ensures k == LENGTH && Encoded(value) == Digits(value, k)
  {
    hide Digits;
    k := LENGTH;
  }

  lemma IdentifierIsEncoded(s: string)
    requires IsUlid(s)
    ensures s == Encoded(Value(s)) && Value(s) < TWO_128
  {
    hide Digits, Power32, Value, InAlphabet;
    var k := EncodedAs(Value(s));
    PowersOf32();
    TextOfItsValue(s);
    ValueFits(s);
  }

  lemma EncodedIsIdentifier(value: nat)
    requires value < TWO_128
    ensures IsUlid(Encoded(value)) && Value(Encoded(value)) == value
  {
    hide Encoded, Digits, Power32, Value, InAlphabet;
    var k := EncodedAs(value);
    PowersOf32();
    EncodingIsIdentifier(value, k);
  }

  /** A text is an identifier exactly if it encodes a 128-bit value, and then it encodes only that one. */
  lemma UlidIffEncodes128Bits(s: string)
    ensures IsUlid(s) <==> exists value :: 0 <= value < TWO_128 && s == Encoded(value)
    ensures forall value :: 0 <= value < TWO_128 && s == Encoded(value) ==> value == Value(s)
  {
    hide Encoded, Value, IsUlid;
    if IsUlid(s) {
      IdentifierIsEncoded(s);
    }
    forall value | 0 <= value < TWO_128 && s == Encoded(value)
      ensures IsUlid(s) && value == Value(s)
    {
      EncodedIsIdentifier(value);
    }
  }

  /** Writes the digits from the last slot to the first. */
  method EncodeCrockford(value: nat) returns (s: string)
    ensures s == Encoded(value)
  {
    var out := new char[LENGTH](i => '0');
    var rest, i := value, LENGTH;
    while i > 0
      invariant 0 <= i <= LENGTH
      invariant Digits(value, LENGTH) == Digits(rest, i) + out[i..]
    {
      i := i - 1;
      out[i] := Digit(rest % 32);
      assert out[i..] == [Digit(rest % 32)] + out[i + 1..];
      rest := rest / 32;
    }
    s := out[..];
  }

  /** The 128 bits of an identifier: the low 48 bits of the clock over ten random bytes. */
  function Bits(unixMs: nat, random: Bytes): nat
  {
    unixMs % TWO_48 * TWO_80 + Number(random)
  }

  lemma BitsFit(unixMs: nat, random: Bytes)
    requires |random| == 10
    ensures Number(random) < TWO_80
    ensures Bits(unixMs, random) < TWO_128 && Bits(unixMs, random) / TWO_80 == unixMs % TWO_48
  {
    NumberIsBounded(random);
    assert Power256(5) == 0x100_0000_0000;
    assert Power256(10) == TWO_80;
    TimeReadsBack(unixMs % TWO_48, Number(random));
  }

  lemma TimeReadsBack(t: nat, n: nat)
    requires n < TWO_80
    ensures (t * TWO_80 + n) / TWO_80 == t
  {
  }

  method NewUlid(unixMs: nat, random: Bytes) returns (s: string)
    requires |random| == 10
    ensures s == Encoded(Bits(unixMs, random))
    ensures IsUlid(s) && |s| == 26
    ensures Value(s)
      == unixMs % 0x1_0000_0000_0000 * 0x1_0000_0000_0000_0000_0000 + Number(random)
  {
    hide Encoded, IsUlid, Value;
    var randomPart: nat := 0;
    var i := 0;
    while i < 10
      invariant 0 <= i <= 10 && randomPart == Number(random[..i])
    {
      NumberOfOneMore(random, i);
      randomPart := randomPart * 256 + random[i];
      i := i + 1;
    }
    assert random[..10] == random;
    s := EncodeCrockford(unixMs % TWO_48 * TWO_80 + randomPart);
    BitsFit(unixMs, random);
    EncodedIsIdentifier(Bits(unixMs, random));
    IdentifierSpelledOut(s);
  }

  /** What is generated is well formed, and its time can be read back from its text. */
  lemma GeneratedIsIdentifier(unixMs: nat, random: Bytes)
    requires |random| == 10
    ensures IsUlid(Encoded(Bits(unixMs, random)))
    ensures Value(Encoded(Bits(unixMs, random))) / 0x1_0000_0000_0000_0000_0000 == unixMs % 0x1_0000_0000_0000
    ensures Value(Encoded(Bits(unixMs, random))) % 0x1_0000_0000_0000_0000_0000 == Number(random)
  {
    hide Encoded, Value, IsUlid;
    BitsFit(unixMs, random);
    EncodedIsIdentifier(Bits(unixMs, random));
  }

  lemma EncodingsKeepOrder(v: nat, w: nat)
    requires v < w < TWO_128
    ensures Less(Encoded(v), Encoded(w))
  {
    hide Encoded, Digits, Power32, Less;
    var k := EncodedAs(v);
    var same := EncodedAs(w);
    PowersOf32();
    DigitsKeepOrder(v, w, k);
  }

  lemma TimeDominates(t1: nat, n1: nat, t2: nat, n2: nat)
    requires t1 < t2 && n1 < TWO_80
    ensures t1 * TWO_80 + n1 < t2 * TWO_80 + n2
  {
    assert (t1 + 1) * TWO_80 <= t2 * TWO_80;
  }

  /** Identifiers of a later millisecond sort later, whatever their random parts are. */
  lemma LaterSortsLater(t1: nat, r1: Bytes, t2: nat, r2: Bytes)
    requires |r1| == 10 && |r2| == 10 && t1 < t2 < TWO_48
    ensures Less(Encoded(Bits(t1, r1)), Encoded(Bits(t2, r2)))
  {
    hide Encoded, Less;
    BitsFit(t1, r1);
    BitsFit(t2, r2);
    TimeDominates(t1, Number(r1), t2, Number(r2));
    EncodingsKeepOrder(Bits(t1, r1), Bits(t2, r2));
  }
}
