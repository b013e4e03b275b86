/**
 * Signing and verifying a capability with HMAC-SHA-256. The hash function and the serialiser of the
 * signed payload are parameters; nothing is assumed of them but the length of a hash.
 */
module CapabilitySignature {
  import opened Wrappers
  import opened ActionGovernance
  import opened ByteStrings
  import opened Text

  const SIGNED_SCHEMA := "kb.action-signed-capability.v1"
  const TAG := "hmac-sha256:"

  // ---- hexadecimal text ----

  function HexDigit(n: nat): char
    requires n < 16
  {
    if n < 10 then '0' + n as char else 'a' + (n - 10) as char
  }

  function HexValue(c: char): (v: Option<nat>)
    ensures v.Some? ==> v.value < 16
  {
    if '0' <= c <= '9' then Some((c - '0') as nat)
    else if 'a' <= c <= 'f' then Some((c - 'a') as nat + 10)
    else None
  }

  function High(n: Byte): (digit: nat)
    ensures digit < 16
  {
    n / 16
  }

  function Low(n: Byte): (digit: nat)
    ensures digit < 16
  {
    n % 16
  }

  function Hex(bytes: Bytes): (s: string)
    ensures |s| == 2 * |bytes|
  {
    if bytes == [] then []
    else
      var last := bytes[|bytes| - 1];
      Hex(bytes[..|bytes| - 1]) + [HexDigit(High(last)), HexDigit(Low(last))]
  }

  /** The byte that two hexadecimal digits spell. */
  function Pair(high: char, low: char): Option<Byte>
  {
    if HexValue(high).None? || HexValue(low).None? then None
    else Some(HexValue(high).value * 16 + HexValue(low).value)
  }

  function Unhex(text: string): Option<Bytes>
  {
    if text == [] then Some([])
    else if |text| == 1 then None
    else
      var front, last := Unhex(text[..|text| - 2]), Pair(text[|text| - 2], text[|text| - 1]);
      if front.None? || last.None? then None else Some(front.value + [last.value])
  }

  function EncodeSignature(mac: Bytes): string
  {
    TAG + Hex(mac)
  }

  lemma DigitsSpellTheirByte(n: Byte)
    ensures Pair(HexDigit(High(n)), HexDigit(Low(n))) == Some(n)
  {
    var high, low := n / 16, n % 16;
    assert n == high * 16 + low && high < 16 && low < 16;
  }

  lemma ByteKeepsItsDigits(high: char, low: char)
    requires Pair(high, low).Some?
    ensures HexDigit(High(Pair(high, low).value)) == high && HexDigit(Low(Pair(high, low).value)) == low
  {
    var h, l := HexValue(high).value, HexValue(low).value;
    assert (h * 16 + l) / 16 == h && (h * 16 + l) % 16 == l;
  }

  lemma UnhexOneMore(text: string, high: char, low: char)
    ensures Unhex(text).None? || Pair(high, low).None? ==> Unhex(text + [high, low]) == None
    ensures Unhex(text).Some? && Pair(high, low).Some? ==>
      Unhex(text + [high, low]) == Some(Unhex(text).value + [Pair(high, low).value])
  {
    hide Pair;
    var whole := text + [high, low];
    assert whole[..|whole| - 2] == text;
  }

  lemma HexOneMore(bytes: Bytes, last: Byte)
    ensures Hex(bytes + [last]) == Hex(bytes) + [HexDigit(High(last)), HexDigit(Low(last))]
  {
    hide HexDigit;
    assert (bytes + [last])[..|bytes|] == bytes;
  }

  /** The two digits of a byte stand where the byte stands, the high one first. */
  lemma {:induction false} HexSpells(bytes: Bytes, i: nat)
    requires i < |bytes|
    ensures var digits := "0123456789abcdef";
      Hex(bytes)[2 * i] == digits[bytes[i] / 16] && Hex(bytes)[2 * i + 1] == digits[bytes[i] % 16]
    decreases |bytes|
  {
    var n := |bytes| - 1;
    if i < n {
      HexSpells(bytes[..n], i);
    }
  }

  lemma NothingInHex()
    ensures Hex([]) == "" && Unhex("") == Some([])
  {
  }

  lemma {:induction false} UnhexAfterHex(bytes: Bytes)
    ensures Unhex(Hex(bytes)) == Some(bytes)
  {
    hide Hex, Unhex, Pair, HexDigit, High, Low;
    if bytes == [] {
      NothingInHex();
    } else {
      var n := |bytes| - 1;
      var front, last := bytes[..n], bytes[n];
      UnhexAfterHex(front);
      assert bytes == front + [last];
      HexOneMore(front, last);
      UnhexOneMore(Hex(front), HexDigit(High(last)), HexDigit(Low(last)));
      DigitsSpellTheirByte(last);
    }
  }

  /** Text is accepted only in the one spelling that encoding produces: lower case, no gaps. */
  lemma {:induction false} HexAfterUnhex(text: string)
    requires Unhex(text).Some?
    ensures Hex(Unhex(text).value) == text
  {
    if text != [] {
      assert |text| > 1;
      var n := |text| - 2;
      var front, high, low := text[..n], text[n], text[n + 1];
      assert text == front + [high, low];
      UnhexOneMore(front, high, low);
      HexAfterUnhex(front);
      hide Hex, Unhex, Pair, HexDigit, High, Low;
      HexOneMore(Unhex(front).value, Pair(high, low).value);
      ByteKeepsItsDigits(high, low);
    }
  }

  lemma {:induction false} OddIsBad(text: string, i: nat)
    requires |text| == 2 * i + 1
    ensures Unhex(text).None?
  {
    hide Pair;
    if i > 0 {
      OddIsBad(text[..|text| - 2], i - 1);
    }
  }

  lemma {:induction false} BadPrefixIsBad(text: string, i: nat)
    requires 2 * i <= |text| && Unhex(text[..2 * i]).None?
    ensures Unhex(text).None?
  {
    hide Pair;
    if 2 * i == |text| {
      assert text[..2 * i] == text;
    } else {
      if |text| >= 2 * i + 2 {
        assert text[..|text| - 2][..2 * i] == text[..2 * i];
        BadPrefixIsBad(text[..|text| - 2], i);
      } else {
        OddIsBad(text, i);
      }
    }
  }

  lemma UnhexStep(text: string, i: nat)
    requires 2 * i + 2 <= |text| && Unhex(text[..2 * i]).Some?
    ensures Unhex(text[..2 * i + 2]) ==
      var pair := Pair(text[2 * i], text[2 * i + 1]);
      if pair.None? then None else Some(Unhex(text[..2 * i]).value + [pair.value])
  {
    assert text[..2 * i + 2][..2 * i] == text[..2 * i];
  }

  /** Reads the 32 bytes back; accepts exactly the texts that encoding 32 bytes produces. */
  method DecodeSignature(text: string) returns (mac: Option<Bytes>)
    ensures mac.Some? ==> |mac.value| == 32 && EncodeSignature(mac.value) == text
    ensures mac.None? ==> forall m: Bytes :: |m| == 32 ==> EncodeSignature(m) != text
  {
    hide Pair, Hex, Unhex, HexDigit;
    NothingInHex();
    if |text| < |TAG| || text[..|TAG|] != TAG {
      forall m: Bytes ensures EncodeSignature(m) != text {
        assert EncodeSignature(m)[..|TAG|] == TAG;
      }
      return None;
    }
    var hex := text[|TAG|..];
    if |hex| != 64 {
      return None;
    }
    var decoded := new Byte[32];
    var i := 0;
    while i < 32
      invariant 0 <= i <= 32
      invariant Unhex(hex[..2 * i]) == Some(decoded[..i])
    {
      var pair := Pair(hex[2 * i], hex[2 * i + 1]);
      UnhexStep(hex, i);
      if pair.None? {
        forall m: Bytes | |m| == 32 ensures EncodeSignature(m) != text {
          UnhexAfterHex(m);
          BadPrefixIsBad(hex, i + 1);
          assert EncodeSignature(m)[|TAG|..] == Hex(m);
        }
        return None;
      }
      decoded[i] := pair.value;
      assert decoded[..i + 1] == decoded[..i] + [pair.value];
      i := i + 1;
    }
    assert hex[..64] == hex;
    HexAfterUnhex(hex);
    assert decoded[..32] == decoded[..] && text == TAG + hex;
    mac := Some(decoded[..]);
  }

  // ---- bitwise operations on bytes ----

  function Xor(a: nat, b: nat): nat
    decreases a + b
  {
    if a == 0 && b == 0 then 0 else (if a % 2 == b % 2 then 0 else 1) + 2 * Xor(a / 2, b / 2)
  }

  function Or(a: nat, b: nat): nat
    decreases a + b
  {
    if a == 0 && b == 0 then 0 else (if a % 2 == 1 || b % 2 == 1 then 1 else 0) + 2 * Or(a / 2, b / 2)
  }

  function Power2(n: nat): (p: nat)
    ensures p > 0
  {
    if n == 0 then 1 else 2 * Power2(n - 1)
  }

  lemma {:induction false} XorIsZeroOnlyOfEquals(a: nat, b: nat)
    ensures Xor(a, b) == 0 <==> a == b
    decreases a + b
  {
    if a != 0 || b != 0 {
      XorIsZeroOnlyOfEquals(a / 2, b / 2);
    }
  }

  lemma {:induction false} OrIsZeroOnlyOfZeros(a: nat, b: nat)
    ensures Or(a, b) == 0 <==> a == 0 && b == 0
    decreases a + b
  {
    if a != 0 || b != 0 {
      OrIsZeroOnlyOfZeros(a / 2, b / 2);
    }
  }

  lemma {:induction false} XorStaysBelow(a: nat, b: nat, n: nat)
    requires a < Power2(n) && b < Power2(n)
    ensures Xor(a, b) < Power2(n)
    decreases n
  {
    if a != 0 || b != 0 {
      XorStaysBelow(a / 2, b / 2, n - 1);
    }
  }

  /** The bit of weight Power2(i). */
  predicate Bit(n: nat, i: nat)
  {
    n / Power2(i) % 2 == 1
  }

  lemma BitOfHalf(n: nat, i: nat)
    ensures Bit(n, i + 1) <==> Bit(n / 2, i)
    ensures Bit(n, 0) <==> n % 2 == 1
  {
    var p := Power2(i);
    DivideTwice(n, p);
    assert Power2(0) == 1;
  }

  lemma DivideTwice(n: nat, p: nat)
    requires p > 0
    ensures n / (2 * p) == n / 2 / p
  {
    var q, r := n / 2 / p, n / 2 % p;
    assert n / 2 == q * p + r;
    var low := 2 * r + n % 2;
    assert n == q * (2 * p) + low && 0 <= low < 2 * p;
    QuotientIs(n, 2 * p, q, low);
  }

  lemma QuotientIs(n: nat, d: nat, q: nat, r: nat)
    requires n == q * d + r && r < d
    ensures n / d == q
  {
    var p := n / d;
    assert n == p * d + n % d;
    if p < q {
      MultiplyKeepsOrder(p + 1, q, d);
    } else if q < p {
      MultiplyKeepsOrder(q + 1, p, d);
    }
  }

  lemma MultiplyKeepsOrder(a: nat, b: nat, d: nat)
    requires a <= b
    ensures a * d <= b * d
  {
  }

  /** A bit of the combination is set exactly if it is set in one of the two and not in the other. */
  lemma {:induction false} XorByBits(a: nat, b: nat, i: nat)
    ensures Bit(Xor(a, b), i) <==> Bit(a, i) != Bit(b, i)
    decreases i
  {
    hide Bit;
    BitOfHalf(a, if i == 0 then 0 else i - 1);
    BitOfHalf(b, if i == 0 then 0 else i - 1);
    BitOfHalf(Xor(a, b), if i == 0 then 0 else i - 1);
    XorHalves(a, b);
    if i > 0 {
      XorByBits(a / 2, b / 2, i - 1);
    }
  }

  lemma XorHalves(a: nat, b: nat)
    ensures Xor(a, b) / 2 == Xor(a / 2, b / 2) && (Xor(a, b) % 2 == 1 <==> a % 2 != b % 2)
  {
  }

  lemma {:induction false} OrByBits(a: nat, b: nat, i: nat)
    ensures Bit(Or(a, b), i) <==> Bit(a, i) || Bit(b, i)
    decreases i
  {
    hide Bit;
    BitOfHalf(a, if i == 0 then 0 else i - 1);
    BitOfHalf(b, if i == 0 then 0 else i - 1);
    BitOfHalf(Or(a, b), if i == 0 then 0 else i - 1);
    OrHalves(a, b);
    if i > 0 {
      OrByBits(a / 2, b / 2, i - 1);
    }
  }

  lemma OrHalves(a: nat, b: nat)
    ensures Or(a, b) / 2 == Or(a / 2, b / 2) && (Or(a, b) % 2 == 1 <==> a % 2 == 1 || b % 2 == 1)
  {
  }

  /** Masking twice with the same value gives back what was masked. */
  lemma {:induction false} XorTwice(a: nat, b: nat)
    ensures Xor(Xor(a, b), b) == a
    decreases a + b
  {
    if a != 0 || b != 0 {
      XorHalves(a, b);
      XorTwice(a / 2, b / 2);
      XorHalves(Xor(a, b), b);
    }
  }

  function XorByte(a: Byte, b: Byte): Byte
  {
    assert Power2(8) == 256 by {
      assert Power2(4) == 16 && Power2(5) == 32;
    }
    XorStaysBelow(a, b, 8);
    Xor(a, b)
  }

  /** Compares without stopping at the first difference. */
  method SameBytes(expected: Bytes, actual: Bytes) returns (same: bool)
    requires |expected| == |actual|
    ensures same <==> expected == actual
  {
    var difference, i := 0, 0;
    while i < |expected|
      invariant 0 <= i <= |expected|
      invariant difference == 0 <==> expected[..i] == actual[..i]
    {
      XorIsZeroOnlyOfEquals(expected[i], actual[i]);
      OrIsZeroOnlyOfZeros(difference, Xor(expected[i], actual[i]));
      assert expected[..i + 1] == expected[..i] + [expected[i]] && actual[..i + 1] == actual[..i] + [actual[i]];
      difference := Or(difference, Xor(expected[i], actual[i]));
      i := i + 1;
    }
    assert expected[..i] == expected && actual[..i] == actual;
    same := difference == 0;
  }

  // ---- HMAC (RFC 2104, section 2) ----

  const BLOCK := 64

  type Hash = Bytes -> Bytes

  ghost predicate IsHash(hash: Hash)
  {
    forall m: Bytes :: |hash(m)| == 32
  }

  /** The key, hashed if it is longer than a block, filled up with zeros to one block. */
  function BlockKey(hash: Hash, key: Bytes): Bytes
  {
    var short := if |key| > BLOCK then hash(key) else key;
    if |short| > BLOCK then short else short + Zeros(BLOCK - |short|)
  }

  function XorAll(block: Bytes, fill: Byte): Bytes
  {
    seq(|block|, i requires 0 <= i < |block| => XorByte(block[i], fill))
  }

  function Hmac(hash: Hash, key: Bytes, message: Bytes): Bytes
  {
    var k := BlockKey(hash, key);
    hash(XorAll(k, 0x5c) + hash(XorAll(k, 0x36) + message))
  }

  /** Every bit of the masked block is the bit of the block, turned over where the fill has a bit. */
  ghost predicate MaskedWith(block: Bytes, masked: Bytes, fill: Byte)
  {
    && |masked| == |block|
    && forall i, b: nat :: 0 <= i < |block| && b < 8 ==> (Bit(masked[i], b) <==> Bit(block[i], b) != Bit(fill, b))
  }

  /** What section 2 of RFC 2104 says of the mac of a message under a key, for blocks of 64 bytes. */
  ghost predicate KeyedHash(hash: Hash, key: Bytes, message: Bytes, mac: Bytes)
  {
    exists block, inner, outer: Bytes ::
      && |block| == 64
      && (if |key| > 64 then hash(key) <= block else key <= block)
      && (forall i :: (if |key| > 64 then |hash(key)| else |key|) <= i < 64 ==> block[i] == 0)
      && MaskedWith(block, inner, 0x36) && MaskedWith(block, outer, 0x5c)
      && mac == hash(outer + hash(inner + message))
  }

  lemma XorAllMasks(block: Bytes, fill: Byte)
    ensures MaskedWith(block, XorAll(block, fill), fill)
  {
    forall i, b: nat | 0 <= i < |block| && b < 8
      ensures Bit(XorAll(block, fill)[i], b) <==> Bit(block[i], b) != Bit(fill, b)
    {
      XorByBits(block[i], fill, b);
    }
  }

  lemma HmacIsKeyedHash(hash: Hash, key: Bytes, message: Bytes)
    requires IsHash(hash)
    ensures KeyedHash(hash, key, message, Hmac(hash, key, message))
  {
    hide XorAll, MaskedWith;
    var block := BlockKey(hash, key);
    KeyBlock(hash, key);
    XorAllMasks(block, 0x36);
    XorAllMasks(block, 0x5c);
    assert |block| == 64;
  }

  lemma KeyBlock(hash: Hash, key: Bytes)
    requires IsHash(hash)
    ensures var short := if |key| > BLOCK then hash(key) else key;
      |short| <= BLOCK && BlockKey(hash, key) == short + Zeros(BLOCK - |short|)
  {
  }

  lemma HmacOfBlocks(hash: Hash, key: Bytes, message: Bytes)
    requires IsHash(hash)
    ensures Hmac(hash, key, message)
            == hash(XorAll(BlockKey(hash, key), 0x5c) + hash(XorAll(BlockKey(hash, key), 0x36) + message))
  {
  }

  lemma Masked(block: Bytes, masked: Bytes, fill: Byte)
    requires |masked| == |block| && forall k :: 0 <= k < |block| ==> masked[k] == XorByte(block[k], fill)
    ensures masked == XorAll(block, fill)
  {
  }

  /** Fills a zeroed block with the key, or with its hash if it is too long. */
  method NormalizeKey(hash: Hash, key: Bytes) returns (normalized: array<Byte>)
    requires IsHash(hash)
    ensures fresh(normalized) && normalized[..] == BlockKey(hash, key)
    ensures normalized.Length == BLOCK
  {
    var short := if |key| > BLOCK then hash(key) else key;
    KeyBlock(hash, key);
    hide BlockKey;
    normalized := new Byte[BLOCK](i => 0);
    var i := 0;
    while i < |short|
      invariant 0 <= i <= |short|
      invariant normalized[..] == short[..i] + Zeros(BLOCK - i)
    {
      normalized[i] := short[i];
      i := i + 1;
    }
    assert short[..i] == short;
  }

  /** The keyed hash: both pads are masked with the key block, byte by byte. */
  method HmacSha256(hash: Hash, key: Bytes, message: Bytes) returns (mac: Bytes)
    requires IsHash(hash)
    ensures mac == Hmac(hash, key, message) && |mac| == 32
    ensures KeyedHash(hash, key, message, mac)
  {
    hide Hmac, BlockKey, XorAll, XorByte, KeyedHash;
    var normalized := NormalizeKey(hash, key);
    var inner, outer := new Byte[BLOCK](i => 0x36), new Byte[BLOCK](i => 0x5c);
    var i := 0;
    while i < BLOCK
      invariant 0 <= i <= BLOCK && normalized[..] == BlockKey(hash, key)
      invariant forall k :: 0 <= k < BLOCK ==> inner[k] == if k < i then XorByte(normalized[k], 0x36) else 0x36
      invariant forall k :: 0 <= k < BLOCK ==> outer[k] == if k < i then XorByte(normalized[k], 0x5c) else 0x5c
    {
      inner[i], outer[i] := XorByte(normalized[i], inner[i]), XorByte(normalized[i], outer[i]);
      i := i + 1;
    }
    Masked(normalized[..], inner[..], 0x36);
    Masked(normalized[..], outer[..], 0x5c);
    HmacOfBlocks(hash, key, message);
    HmacIsKeyedHash(hash, key, message);
    mac := hash(outer[..] + hash(inner[..] + message));
  }

  // ---- capabilities ----

  datatype SignedCapability = SignedCapability(
    schema: string,
    workspace: string,
    actor: string,
    clientSurface: string,
    issuer: string,
    issuedAt: int,
    nonce: string,
    lease: CapabilityLease,
    signature: string)

  /** Everything the signature covers. */
  datatype Payload = Payload(
    schema: string,
    workspace: string,
    actor: string,
    clientSurface: string,
    issuer: string,
    issuedAt: int,
    nonce: string,
    lease: CapabilityLease)

  type Serialiser = Payload -> Bytes

  datatype Failure =
    | UnsupportedSchema
    | InvalidIssuer
    | UnknownIssuer
    | InvalidNonce
    | InvalidScope
    | IssuedInFuture
    | Expired
    | NotSingleUse
    | InvalidSignature

  function PayloadOf(c: SignedCapability): Payload
  {
    Payload(c.schema, c.workspace, c.actor, c.clientSurface, c.issuer, c.issuedAt, c.nonce, c.lease)
  }

  function Sign(lease: CapabilityLease, request: ActionRequest, requestHash: string, workspace: string, issuer: string,
                issuedAt: int, nonce: string, key: Bytes, hash: Hash, serialise: Serialiser): Option<SignedCapability>
  {
    if Blank(workspace) || Blank(request.actor) || Blank(request.clientSurface) then None
    else if lease.requestHash != requestHash || lease.action != request.action || lease.target != request.target then
      None
    else if Blank(issuer) || Blank(nonce) || |key| < 32 then None
    else
      var unsigned := SignedCapability(SIGNED_SCHEMA, workspace, request.actor, request.clientSurface, issuer,
        issuedAt, nonce, lease, "");
      Some(unsigned.(signature := EncodeSignature(Hmac(hash, key, serialise(PayloadOf(unsigned))))))
  }

  /** Two capabilities have the same payload exactly if they differ in nothing but the signature. */
  lemma PayloadCoversAllElse(a: SignedCapability, b: SignedCapability)
    ensures PayloadOf(a) == PayloadOf(b) <==> a == b.(signature := a.signature)
  {
  }

  /** What is signed: a lease for exactly this request, by a named issuer with a key that is long enough. */
  lemma SignedIffInOrder(lease: CapabilityLease, request: ActionRequest, requestHash: string, workspace: string,
                         issuer: string, issuedAt: int, nonce: string, key: Bytes, hash: Hash, serialise: Serialiser)
    ensures var signed := Sign(lease, request, requestHash, workspace, issuer, issuedAt, nonce, key, hash, serialise);
      && (signed.Some? <==>
        && (forall text :: text in {workspace, request.actor, request.clientSurface, issuer, nonce} ==> !Blank(text))
        && lease.requestHash == requestHash && lease.action == request.action && lease.target == request.target
        && |key| >= 32)
      && (signed.Some? ==>
        && signed.value.(signature := "") == SignedCapability("kb.action-signed-capability.v1", workspace,
          request.actor, request.clientSurface, issuer, issuedAt, nonce, lease, "")
        && signed.value.signature
          == "hmac-sha256:" + Hex(Hmac(hash, key, serialise(PayloadOf(signed.value)))))
  {
    var signed := Sign(lease, request, requestHash, workspace, issuer, issuedAt, nonce, key, hash, serialise);
    if signed.Some? {
      PayloadCoversAllElse(signed.value, signed.value.(signature := ""));
    }
  }

  predicate InForce(c: SignedCapability, now: int)
  {
    c.issuedAt <= now < c.lease.expiresAt && c.lease.remainingUses == 1
  }

  /** What a verifier that trusts exactly these keys accepts. */
  predicate Genuine(keys: map<string, Bytes>, c: SignedCapability, now: int, hash: Hash, serialise: Serialiser)
  {
    && c.schema == SIGNED_SCHEMA
    && !Blank(c.issuer) && !Blank(c.nonce) && !Blank(c.workspace) && !Blank(c.actor) && !Blank(c.clientSurface)
    && InForce(c, now)
    && c.issuer in keys
    && c.signature == EncodeSignature(Hmac(hash, keys[c.issuer], serialise(PayloadOf(c))))
  }

  /** The reason that a refusal gives: the first condition that is not met. */
  function Reason(keys: map<string, Bytes>, c: SignedCapability, now: int): Failure
  {
    if c.schema != "kb.action-signed-capability.v1" then UnsupportedSchema
    else if Blank(c.issuer) then InvalidIssuer
    else if Blank(c.nonce) then InvalidNonce
    else if Blank(c.workspace) || Blank(c.actor) || Blank(c.clientSurface) then InvalidScope
    else if now < c.issuedAt then IssuedInFuture
    else if c.lease.expiresAt <= now then Expired
    else if c.lease.remainingUses != 1 then NotSingleUse
    else if c.issuer !in keys then UnknownIssuer
    else InvalidSignature
  }

  class TrustedCapabilityIssuers {
    var keys: map<string, Bytes>

    constructor ()
      ensures keys == map[]
    {
      keys := map[];
    }

    method TrustHmacSha256(issuer: string, key: Bytes) returns (ok: bool)
      modifies this
      ensures ok <==> !Blank(issuer) && |key| >= 32
      ensures keys == if ok then old(keys)[issuer := key] else old(keys)
    {
      ok := false;
      if Blank(issuer) { return; }
      if |key| < 32 { return; }
      keys := keys[issuer := key];
      ok := true;
    }

    /** Checks form, time and use before the signature; accepts exactly the genuine ones in force. */
    method Verify(c: SignedCapability, now: int, hash: Hash, serialise: Serialiser) returns (failure: Option<Failure>)
      requires IsHash(hash)
      ensures failure.None? <==> Genuine(keys, c, now, hash, serialise)
      ensures failure.None? <==>
        && c.schema == "kb.action-signed-capability.v1"
        && (forall text :: text in {c.issuer, c.nonce, c.workspace, c.actor, c.clientSurface} ==> !Blank(text))
        && c.issuedAt <= now < c.lease.expiresAt && c.lease.remainingUses == 1
        && c.issuer in keys
        && c.signature == "hmac-sha256:" + Hex(Hmac(hash, keys[c.issuer], serialise(PayloadOf(c))))
      ensures failure.Some? ==> failure == Some(Reason(keys, c, now))
    {
      if c.schema != SIGNED_SCHEMA { return Some(UnsupportedSchema); }
      if Blank(c.issuer) { return Some(InvalidIssuer); }
      if Blank(c.nonce) { return Some(InvalidNonce); }
      if Blank(c.workspace) || Blank(c.actor) || Blank(c.clientSurface) { return Some(InvalidScope); }
      if c.issuedAt > now { return Some(IssuedInFuture); }
      if c.lease.expiresAt <= c.issuedAt || c.lease.expiresAt <= now { return Some(Expired); }
      if c.lease.remainingUses != 1 { return Some(NotSingleUse); }
      if c.issuer !in keys { return Some(UnknownIssuer); }
      var expected := HmacSha256(hash, keys[c.issuer], serialise(PayloadOf(c)));
      var signature := DecodeSignature(c.signature);
      if signature.None? { return Some(InvalidSignature); }
      var same := SameBytes(expected, signature.value);
      if same {
        failure := None;
      } else {
        UnhexAfterHex(expected);
        UnhexAfterHex(signature.value);
        assert EncodeSignature(expected)[|TAG|..] == Hex(expected) && c.signature[|TAG|..] == Hex(signature.value);
        failure := Some(InvalidSignature);
      }
    }
  }

  /**
   * A signed capability is accepted under the signer's key exactly while it is in force, whatever the clock did in
   * between.
   */
  lemma SignedIsGenuineWhileInForce(lease: CapabilityLease, request: ActionRequest, requestHash: string,
                                    workspace: string, issuer: string, issuedAt: int, nonce: string, key: Bytes,
                                    hash: Hash, serialise: Serialiser, keys: map<string, Bytes>, now: int)
    requires issuer in keys && keys[issuer] == key
    requires Sign(lease, request, requestHash, workspace, issuer, issuedAt, nonce, key, hash, serialise).Some?
    ensures var c := Sign(lease, request, requestHash, workspace, issuer, issuedAt, nonce, key, hash, serialise).value;
      && (Genuine(keys, c, now, hash, serialise) <==> issuedAt <= now < lease.expiresAt && lease.remainingUses == 1)
      && PayloadOf(c) == PayloadOf(c.(signature := ""))
      && c.workspace == workspace && c.actor == request.actor && c.clientSurface == request.clientSurface
      && c.lease == lease && lease.requestHash == requestHash
  {
    var unsigned := SignedCapability(SIGNED_SCHEMA, workspace, request.actor, request.clientSurface, issuer, issuedAt,
      nonce, lease, "");
    var c := Sign(lease, request, requestHash, workspace, issuer, issuedAt, nonce, key, hash, serialise).value;
    assert PayloadOf(c) == PayloadOf(unsigned);
  }
}
