/** Request ids: generated as version 4 UUIDs, accepted from clients, resolved once. */
module RequestId {
  import opened Text

  /** An unsigned char; masks and shifts of the code are written as remainders and quotients. */
  type Byte = n: nat | n < 256

  const MAX_REQUEST_ID_LENGTH: nat := 128

  predicate IsAllowedRequestIdCharacter(c: char) {
    'a' <= c <= 'z' || 'A' <= c <= 'Z' || '0' <= c <= '9' || c == '.' || c == '_' || c == ':' || c == '-'
  }

  predicate IsValidRequestId(id: string) {
    id != "" && |id| <= MAX_REQUEST_ID_LENGTH && forall k :: 0 <= k < |id| ==> IsAllowedRequestIdCharacter(id[k])
  }

  function Hex(nibble: nat): (c: char)
    requires nibble < 16
    ensures IsLowerHexDigit(c)
  {
    if nibble < 10 then (nibble + '0' as int) as char else (nibble - 10 + 'a' as int) as char
  }

  function Nibble(c: char): nat {
    if '0' <= c <= '9' then c as int - '0' as int
    else if 'a' <= c <= 'f' then c as int - 'a' as int + 10
    else 0
  }

  /** `(b[6] & 0x0F) | 0x40` and `(b[8] & 0x3F) | 0x80`. */
  function Masked(random: seq<Byte>): (bytes: seq<Byte>)
    requires |random| == 16
    ensures |bytes| == 16
  {
    random[6 := random[6] % 16 + 0x40][8 := random[8] % 64 + 0x80]
  }

  /** Where the two digits of a byte begin. */
  function Position(i: nat): nat {
    2 * i
    + (if i >= 4 then 1 else 0) + (if i >= 6 then 1 else 0)
    + (if i >= 8 then 1 else 0) + (if i >= 10 then 1 else 0)
  }

  predicate IsHyphenPosition(k: nat) {
    k == 8 || k == 13 || k == 18 || k == 23
  }

  function HyphensBefore(k: nat): nat {
    (if k > 8 then 1 else 0) + (if k > 13 then 1 else 0) + (if k > 18 then 1 else 0) + (if k > 23 then 1 else 0)
  }

  /** The text form of section 4 of RFC 9562, character by character. */
  function CharAt(bytes: seq<Byte>, k: nat): char
    requires |bytes| == 16 && k < 36
  {
    if IsHyphenPosition(k) then '-'
    else
      var digit := k - HyphensBefore(k);
      if digit % 2 == 0 then Hex(bytes[digit / 2] / 16) else Hex(bytes[digit / 2] % 16)
  }

  function TextOf(bytes: seq<Byte>): (text: string)
    requires |bytes| == 16
    ensures |text| == 36
  {
    seq(36, k requires 0 <= k < 36 => CharAt(bytes, k))
  }

  method GenerateRequestId(random: seq<Byte>) returns (id: string)
    requires |random| == 16
    ensures id == TextOf(Masked(random))
  {
    var bytes := random;
    bytes := bytes[6 := bytes[6] % 16 + 0x40];
    bytes := bytes[8 := bytes[8] % 64 + 0x80];
    var buffer := new char[36];
    var outputIndex := 0;
    for byteIndex := 0 to 16
      invariant outputIndex == if byteIndex == 0 then 0 else Position(byteIndex - 1) + 2
      invariant forall k :: 0 <= k < outputIndex ==> buffer[k] == CharAt(bytes, k)
    {
      if byteIndex == 4 || byteIndex == 6 || byteIndex == 8 || byteIndex == 10 {
        buffer[outputIndex] := '-';
        outputIndex := outputIndex + 1;
      }
      var byte := bytes[byteIndex];
      buffer[outputIndex] := Hex(byte / 16);
      outputIndex := outputIndex + 1;
      buffer[outputIndex] := Hex(byte % 16);
      outputIndex := outputIndex + 1;
    }
    id := buffer[..];
    assert id == TextOf(bytes);
  }

  function ByteAt(text: string, i: nat): Byte
    requires |text| == 36 && i < 16
  {
    (Nibble(text[Position(i)]) * 16 + Nibble(text[Position(i) + 1])) % 256
  }

  /** The bytes a UUID text denotes. */
  function Decoded(text: string): (bytes: seq<Byte>)
    requires |text| == 36
    ensures |bytes| == 16
  {
    seq(16, i requires 0 <= i < 16 => ByteAt(text, i))
  }

  lemma NibbleOfHex(nibble: nat)
    requires nibble < 16
    ensures Nibble(Hex(nibble)) == nibble
  {
  }

  lemma PositionsHoldDigits(i: nat)
    requires i < 16
    ensures var k := Position(i);
      && k + 1 < 36 && !IsHyphenPosition(k) && !IsHyphenPosition(k + 1)
      && k - HyphensBefore(k) == 2 * i && k + 1 - HyphensBefore(k + 1) == 2 * i + 1
  {
  }

  lemma HalfOf(n: nat, i: nat)
    requires n == 2 * i || n == 2 * i + 1
    ensures n / 2 == i && n % 2 == n - 2 * i
  {
  }

  lemma DigitsOf(bytes: seq<Byte>, i: nat)
    requires |bytes| == 16 && i < 16
    ensures Position(i) + 1 < 36
    ensures TextOf(bytes)[Position(i)] == Hex(bytes[i] / 16) && TextOf(bytes)[Position(i) + 1] == Hex(bytes[i] % 16)
  {
    PositionsHoldDigits(i);
    HalfOf(2 * i, i);
    HalfOf(2 * i + 1, i);
  }

  lemma ByteRoundTrip(bytes: seq<Byte>, i: nat)
    requires |bytes| == 16 && i < 16
    ensures ByteAt(TextOf(bytes), i) == bytes[i]
  {
    DigitsOf(bytes, i);
    NibbleOfHex(bytes[i] / 16);
    NibbleOfHex(bytes[i] % 16);
  }

  /** Decoding a text gives back its bytes, so distinct bytes have distinct texts. */
  lemma TextRoundTrip(bytes: seq<Byte>)
    requires |bytes| == 16
    ensures Decoded(TextOf(bytes)) == bytes
  {
    forall i | 0 <= i < 16 ensures Decoded(TextOf(bytes))[i] == bytes[i] {
      ByteRoundTrip(bytes, i);
    }
  }

  lemma MaskedFields(random: seq<Byte>)
    requires |random| == 16
    ensures var bytes := Masked(random);
      && bytes[6] / 16 == 4 && bytes[6] % 16 == random[6] % 16
      && 8 <= bytes[8] / 16 <= 11 && bytes[8] % 64 == random[8] % 64
      && forall i :: 0 <= i < 16 && i != 6 && i != 8 ==> bytes[i] == random[i]
  {
  }

  lemma CharactersOf(bytes: seq<Byte>, k: nat)
    requires |bytes| == 16 && k < 36
    ensures if IsHyphenPosition(k) then CharAt(bytes, k) == '-' else IsLowerHexDigit(CharAt(bytes, k))
    ensures IsAllowedRequestIdCharacter(CharAt(bytes, k))
  {
  }

  /**
   * A generated id has hyphens exactly at 8, 13, 18 and 23, lower-case hex elsewhere, version 4 and
   * the RFC variant (section 5.4 of RFC 9562), decodes to the masked bytes, and is a valid request id.
   */
  lemma GeneratedIdIsUuid4(random: seq<Byte>)
    requires |random| == 16
    ensures var id := TextOf(Masked(random));
      && (forall k :: 0 <= k < 36 ==> if IsHyphenPosition(k) then id[k] == '-' else IsLowerHexDigit(id[k]))
      && id[14] == '4'
      && (id[19] == '8' || id[19] == '9' || id[19] == 'a' || id[19] == 'b')
      && Decoded(id) == Masked(random)
      && IsValidRequestId(id)
  {
    var bytes := Masked(random);
    var id := TextOf(bytes);
    TextRoundTrip(bytes);
    MaskedFields(random);
    DigitsOf(bytes, 6);
    DigitsOf(bytes, 8);
    forall k | 0 <= k < 36
      ensures if IsHyphenPosition(k) then id[k] == '-' else IsLowerHexDigit(id[k])
      ensures IsAllowedRequestIdCharacter(id[k])
    {
      CharactersOf(bytes, k);
    }
  }

  /** All but the version and variant bits. */
  predicate SameRandomBits(a: seq<Byte>, b: seq<Byte>)
    requires |a| == 16 == |b|
  {
    && (forall i :: 0 <= i < 16 && i != 6 && i != 8 ==> a[i] == b[i])
    && a[6] % 16 == b[6] % 16 && a[8] % 64 == b[8] % 64
  }

  /** Two draws give the same id exactly when they agree outside the version and variant bits. */
  lemma IdKeepsRandomBits(a: seq<Byte>, b: seq<Byte>)
    requires |a| == 16 == |b|
    ensures TextOf(Masked(a)) == TextOf(Masked(b)) <==> SameRandomBits(a, b)
  {
    MaskedFields(a);
    MaskedFields(b);
    if SameRandomBits(a, b) {
      assert Masked(a) == Masked(b);
    }
    if TextOf(Masked(a)) == TextOf(Masked(b)) {
      TextRoundTrip(Masked(a));
      TextRoundTrip(Masked(b));
    }
  }

  /** A valid incoming id is kept; anything else is replaced. */
  function Resolved(incoming: string, random: seq<Byte>): string
    requires |random| == 16
  {
    if IsValidRequestId(incoming) then incoming else TextOf(Masked(random))
  }

  method ResolveRequestId(incoming: string, random: seq<Byte>) returns (id: string)
    requires |random| == 16
    ensures id == Resolved(incoming, random)
  {
    if IsValidRequestId(incoming) {
      return incoming;
    }
    id := GenerateRequestId(random);
  }

  /** A resolved id is valid, and resolving it again, with any other draw, changes nothing. */
  lemma ResolvingIsIdempotent(incoming: string, random: seq<Byte>, again: seq<Byte>)
    requires |random| == 16 == |again|
    ensures var id := Resolved(incoming, random);
      IsValidRequestId(id) && Resolved(id, again) == id
  {
    GeneratedIdIsUuid4(random);
  }

  /** A valid id is 1 to 128 letters, digits, dots, underscores, colons and dashes. */
  lemma ValidIdsAre(id: string)
    ensures IsValidRequestId(id) <==>
      && 1 <= |id| <= 128
      && forall c :: c in id ==>
           'a' <= c <= 'z' || 'A' <= c <= 'Z' || '0' <= c <= '9' || c == '.' || c == '_' || c == ':' || c == '-'
  {
    assert forall k :: 0 <= k < |id| ==> id[k] in id;
  }
}
