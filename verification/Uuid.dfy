/** Generated identifiers: section 4.4 of RFC 4122, and the pattern the validator holds connection ids against. */
module Uuid {
  import opened Prelude

  const LENGTH: nat := 36

  function HexDigit(n: int): char
    requires 0 <= n < 16
  {
    if n < 10 then '0' + n as char else 'a' + (n - 10) as char
  }

  const DIGITS: string := "0123456789abcdef"

  lemma HexDigitIs(n: int)
    requires 0 <= n < 16
    ensures HexDigit(n) == DIGITS[n]
  {
    if n < 8 {
      assert n == 0 || n == 1 || n == 2 || n == 3 || n == 4 || n == 5 || n == 6 || n == 7;
    } else {
      assert n == 8 || n == 9 || n == 10 || n == 11 || n == 12 || n == 13 || n == 14 || n == 15;
    }
  }

  predicate IsLowerHex(c: char) {
    '0' <= c <= '9' || 'a' <= c <= 'f'
  }

  predicate IsDash(i: int) {
    i == 8 || i == 13 || i == 18 || i == 23
  }

  /** `UUID_V4`: lower-case hex in groups of 8, 4, 4, 4 and 12, version 4, variant 8, 9, a or b. */
  predicate MatchesUuidV4(s: string) {
    && |s| == LENGTH
    && (forall i :: 0 <= i < LENGTH ==> if IsDash(i) then s[i] == '-' else IsLowerHex(s[i]))
    && s[14] == '4'
    && s[19] in {'8', '9', 'a', 'b'}
  }

  /** Where the two digits of the i-th octet are: after the digits of the octets before it and the dashes passed. */
  function DigitsAt(i: int): int {
    2 * i + (if i >= 4 then 1 else 0) + (if i >= 6 then 1 else 0) + (if i >= 8 then 1 else 0)
    + (if i >= 10 then 1 else 0)
  }

  /** The version and variant bits are overwritten in octets 6 and 8. */
  function Stamped(octets: seq<byte>, i: int): (r: byte)
    requires |octets| == 16 && 0 <= i < 16
    ensures i == 6 ==> r / 16 == 4 && r % 16 == octets[i] % 16
    ensures i == 8 ==> r / 64 == 2 && r % 64 == octets[i] % 64
    ensures i != 6 && i != 8 ==> r == octets[i]
  {
    var b: int := octets[i];
    if i == 6 then b % 16 + 0x40 else if i == 8 then b % 64 + 0x80 else b
  }

  lemma DigitsAreLowerHex(n: int)
    requires 0 <= n < 16
    ensures IsLowerHex(HexDigit(n))
  {
  }

  lemma FixedDigits(variant: byte)
    requires variant / 64 == 2
    ensures HexDigit(4) == '4' && HexDigit(variant as int / 16) in {'8', '9', 'a', 'b'}
  {
    var n: int := variant as int / 16;
    assert n == 8 || n == 9 || n == 10 || n == 11;
  }

  /** The text has two digits for each octet; only the version and the variant replace bits of the octets. */
  predicate SpellsOut(uuid: string, octets: seq<byte>)
    requires |uuid| == LENGTH && |octets| == 16
  {
    && (forall i :: 0 <= i < 16 ==> uuid[DigitsAt(i) + 1] == DIGITS[octets[i] % 16])
    && (forall i :: 0 <= i < 16 && i != 6 && i != 8 ==> uuid[DigitsAt(i)] == DIGITS[octets[i] / 16])
    && uuid[14] == DIGITS[4]
    && uuid[19] == DIGITS[8 + octets[8] / 16 % 4]
  }

  lemma DigitOfEach(octets: seq<byte>, i: int)
    requires |octets| == 16 && 0 <= i < 16
    ensures HexDigit(Stamped(octets, i) % 16) == DIGITS[octets[i] % 16]
    ensures HexDigit(Stamped(octets, i) / 16) ==
            DIGITS[if i == 6 then 4 else if i == 8 then 8 + octets[8] / 16 % 4 else octets[i] / 16]
  {
    HexDigitIs(Stamped(octets, i) / 16);
    HexDigitIs(Stamped(octets, i) % 16);
    VariantDigits(octets[8]);
  }

  lemma VariantDigits(b: int)
    requires 0 <= b < 256
    ensures (b % 64 + 0x80) / 16 == 8 + b / 16 % 4 && (b % 64 + 0x80) % 16 == b % 16
  {
  }

  lemma StampedIsSpelledOut(octets: seq<byte>, uuid: string)
    requires |octets| == 16 && |uuid| == LENGTH
    requires forall i :: 0 <= i < 16 ==> uuid[DigitsAt(i)] == HexDigit(Stamped(octets, i) / 16)
    requires forall i :: 0 <= i < 16 ==> uuid[DigitsAt(i) + 1] == HexDigit(Stamped(octets, i) % 16)
    ensures SpellsOut(uuid, octets)
  {
    hide HexDigit, Stamped;
    assert DigitsAt(6) == 14 && DigitsAt(8) == 19;
    forall i | 0 <= i < 16
      ensures uuid[DigitsAt(i) + 1] == DIGITS[octets[i] % 16]
      ensures uuid[DigitsAt(i)] ==
              DIGITS[if i == 6 then 4 else if i == 8 then 8 + octets[8] / 16 % 4 else octets[i] / 16]
    {
      DigitOfEach(octets, i);
    }
  }

  /**
    `generate_uuid_v4` on given random octets: the text matches the validator's pattern and spells out the octets, two
    digits each, but for the version in the first digit of octet 6 and the variant in the first of octet 8.
    */
  method Generate(octets: seq<byte>) returns (uuid: string)
    requires |octets| == 16
    ensures MatchesUuidV4(uuid)
    ensures SpellsOut(uuid, octets)
  {
    hide HexDigit, IsLowerHex, SpellsOut;
    uuid := "";
    for i := 0 to 16
      invariant |uuid| == DigitsAt(i) - (if i == 4 || i == 6 || i == 8 || i == 10 then 1 else 0)
      invariant forall k :: 0 <= k < |uuid| ==> if IsDash(k) then uuid[k] == '-' else IsLowerHex(uuid[k])
      invariant forall k :: 0 <= k < i ==>
                  && DigitsAt(k) + 1 < |uuid|
                  && uuid[DigitsAt(k)] == HexDigit(Stamped(octets, k) / 16)
                  && uuid[DigitsAt(k) + 1] == HexDigit(Stamped(octets, k) % 16)
    {
      if i == 4 || i == 6 || i == 8 || i == 10 {
        uuid := uuid + ['-'];
      }
      var b := Stamped(octets, i);
      DigitsAreLowerHex(b / 16);
      DigitsAreLowerHex(b % 16);
      uuid := uuid + [HexDigit(b / 16), HexDigit(b % 16)];
    }
    assert uuid[DigitsAt(6)] == HexDigit(4) && DigitsAt(6) == 14 && DigitsAt(8) == 19;
    assert uuid[DigitsAt(8)] == HexDigit(Stamped(octets, 8) / 16);
    FixedDigits(Stamped(octets, 8));
    StampedIsSpelledOut(octets, uuid);
  }
}
