/** Version 4 UUID text (sections 4 and 5.4 of RFC 9562), and a reader that recovers
    the bytes. */
module Uuid {
  import opened Basics

  type Bytes16 = b: seq<bv8> | |b| == 16 witness seq(16, _ => 0)

  /** The sixteen random bytes with the version and variant bits forced. */
  function Stamped(random: Bytes16): Bytes16 {
    random[6 := WithVersion(random[6])][8 := WithVariant(random[8])]
  }

  function WithVersion(b: bv8): bv8 {
    (b & 0x0f) | 0x40
  }

  function WithVariant(b: bv8): bv8 {
    (b & 0x3f) | 0x80
  }

  function HexDigit(nibble: bv8): char
    requires nibble < 16
  {
    if nibble == 0 then '0' else if nibble == 1 then '1' else if nibble == 2 then '2'
    else if nibble == 3 then '3' else if nibble == 4 then '4' else if nibble == 5 then '5'
    else if nibble == 6 then '6' else if nibble == 7 then '7' else if nibble == 8 then '8'
    else if nibble == 9 then '9' else if nibble == 10 then 'a' else if nibble == 11 then 'b'
    else if nibble == 12 then 'c' else if nibble == 13 then 'd' else if nibble == 14 then 'e'
    else 'f'
  }

  /** The %x verb on bytes: two lower-case digits each. */
  function Hex(b: seq<bv8>): (s: string)
    ensures |s| == 2 * |b|
  {
    if b == [] then "" else HexByte(b[0]) + Hex(b[1..])
  }

  function HexByte(b: bv8): (s: string)
    ensures |s| == 2
  {
    [HexDigit(b >> 4), HexDigit(b & 0x0f)]
  }

  /** The five groups. Each width in the source's format string is exactly the number of
      digits of its group, so nothing is padded. */
  function UuidText(b: Bytes16): string {
    Hex(b[0..4]) + "-" + Hex(b[4..6]) + "-" + Hex(b[6..8]) + "-" + Hex(b[8..10]) + "-" + Hex(b[10..])
  }

  method NewUuid(random: Bytes16) returns (text: string)
    ensures text == UuidText(Stamped(random))
  {
    var b := new bv8[16](i requires 0 <= i < 16 => random[i]);
    assert b[..] == random;
    b[6] := (b[6] & 0x0f) | 0x40;
    b[8] := (b[8] & 0x3f) | 0x80;
    assert b[..] == Stamped(random);
    text := UuidText(b[..]);
  }

  // ---- reading ----

  function HexValue(c: char): Option<bv8> {
    if c == '0' then Some(0) else if c == '1' then Some(1) else if c == '2' then Some(2)
    else if c == '3' then Some(3) else if c == '4' then Some(4) else if c == '5' then Some(5)
    else if c == '6' then Some(6) else if c == '7' then Some(7) else if c == '8' then Some(8)
    else if c == '9' then Some(9) else if c == 'a' then Some(10) else if c == 'b' then Some(11)
    else if c == 'c' then Some(12) else if c == 'd' then Some(13) else if c == 'e' then Some(14)
    else if c == 'f' then Some(15)
    else None
  }

  function ReadHex(s: string): Option<seq<bv8>> {
    if s == "" then Some([])
    else if |s| == 1 then None
    else
      match (HexValue(s[0]), HexValue(s[1]), ReadHex(s[2..]))
      case (Some(hi), Some(lo), Some(rest)) => Some([(hi << 4) | lo] + rest)
      case (_, _, _) => None
  }

  function ReadUuid(text: string): Option<seq<bv8>> {
    if |text| == 36 && text[8] == text[13] == text[18] == text[23] == '-' then
      ReadHex(text[..8] + text[9..13] + text[14..18] + text[19..23] + text[24..])
    else
      None
  }

  lemma ByteSplits(x: bv8)
    ensures x >> 4 < 16 && x & 0x0f < 16
    ensures ((x >> 4) << 4) | (x & 0x0f) == x
  {
  }

  lemma HexValueOfDigit(n: bv8)
    requires n < 16
    ensures HexValue(HexDigit(n)) == Some(n)
  {
  }

  lemma {:induction false} ReadHexOfHex(b: seq<bv8>)
    ensures ReadHex(Hex(b)) == Some(b)
  {
    if b != [] {
      ByteSplits(b[0]);
      HexByteDigits(b[0]);
      ReadHexOfHex(b[1..]);
      assert Hex(b)[2..] == Hex(b[1..]);
      assert b == [b[0]] + b[1..];
    }
  }

  lemma {:induction false} HexAppend(a: seq<bv8>, b: seq<bv8>)
    ensures Hex(a + b) == Hex(a) + Hex(b)
  {
    if a == [] {
      assert a + b == b;
    } else {
      HexAppend(a[1..], b);
      assert (a + b)[0] == a[0] && (a + b)[1..] == a[1..] + b;
      ConcatAssociative(HexByte(a[0]), Hex(a[1..]), Hex(b));
    }
  }

  lemma {:induction false} HexAt(b: seq<bv8>, i: nat)
    requires i < |b|
    ensures Hex(b)[2 * i] == HexDigit(b[i] >> 4)
    ensures Hex(b)[2 * i + 1] == HexDigit(b[i] & 0x0f)
  {
    if 0 < i {
      HexAt(b[1..], i - 1);
    }
  }

  /** The layout: 36 characters, hyphens at 8, 13, 18 and 23, and between them the digits
      of the five groups of bytes. */
  predicate LaidOut(text: string, b: Bytes16) {
    && |text| == 36
    && text[8] == text[13] == text[18] == text[23] == '-'
    && text[..8] == Hex(b[0..4])
    && text[9..13] == Hex(b[4..6])
    && text[14..18] == Hex(b[6..8])
    && text[19..23] == Hex(b[8..10])
    && text[24..] == Hex(b[10..])
  }

  lemma UuidLayout(b: Bytes16)
    ensures LaidOut(UuidText(b), b)
  {
  }

  /** The reader recovers the bytes that were printed. */
  lemma ReadUuidText(b: Bytes16)
    ensures ReadUuid(UuidText(b)) == Some(b)
  {
    UuidLayout(b);
    HexAppend(b[0..4], b[4..6]);
    HexAppend(b[0..4] + b[4..6], b[6..8]);
    HexAppend(b[0..4] + b[4..6] + b[6..8], b[8..10]);
    HexAppend(b[0..4] + b[4..6] + b[6..8] + b[8..10], b[10..]);
    assert b[0..4] + b[4..6] + b[6..8] + b[8..10] + b[10..] == b;
    ReadHexOfHex(b);
  }

  /** Version and variant of every generated identifier, at their places in the text. */
  lemma VersionAndVariant(random: Bytes16)
    ensures |UuidText(Stamped(random))| == 36
    ensures UuidText(Stamped(random))[14] == '4'
    ensures UuidText(Stamped(random))[19] in "89ab"
  {
    UuidLayout(Stamped(random));
    StampedBytes(random[6], random[8]);
    HexAt(Stamped(random)[6..8], 0);
    HexAt(Stamped(random)[8..10], 0);
  }

  lemma StampedBytes(x: bv8, y: bv8)
    ensures WithVersion(x) >> 4 == 4
    ensures 8 <= WithVariant(y) >> 4 <= 11
  {
  }

  /** Hyphens stand at the four places only; every other character is a lower-case
      hexadecimal digit. */
  lemma OnlyHexDigits(b: Bytes16, i: nat)
    requires i < 36
    ensures |UuidText(b)| == 36
    ensures UuidText(b)[i] == '-' <==> i in {8, 13, 18, 23}
    ensures i !in {8, 13, 18, 23} ==> HexValue(UuidText(b)[i]).Some?
  {
    UuidLayout(b);
    if i !in {8, 13, 18, 23} {
      OnlyHexDigitsIn(UuidText(b), b, i);
    }
  }

  lemma OnlyHexDigitsIn(text: string, b: Bytes16, i: nat)
    requires LaidOut(text, b) && i < 36 && i !in {8, 13, 18, 23}
    ensures HexValue(text[i]).Some?
  {
    if i < 8 {
      HexDigitsOnly(b[0..4], i);
      assert text[i] == text[..8][i];
    } else if i < 13 {
      HexDigitsOnly(b[4..6], i - 9);
      assert text[i] == text[9..13][i - 9];
    } else if i < 18 {
      HexDigitsOnly(b[6..8], i - 14);
      assert text[i] == text[14..18][i - 14];
    } else if i < 23 {
      HexDigitsOnly(b[8..10], i - 19);
      assert text[i] == text[19..23][i - 19];
    } else {
      HexDigitsOnly(b[10..], i - 24);
      assert text[i] == text[24..][i - 24];
    }
  }

  lemma HexDigitsOnly(b: seq<bv8>, i: nat)
    requires i < 2 * |b|
    ensures HexValue(Hex(b)[i]).Some?
  {
    HexAt(b, i / 2);
    HexByteDigits(b[i / 2]);
    assert i == 2 * (i / 2) || i == 2 * (i / 2) + 1;
  }

  lemma HexByteDigits(x: bv8)
    ensures HexValue(HexDigit(x >> 4)) == Some(x >> 4)
    ensures HexValue(HexDigit(x & 0x0f)) == Some(x & 0x0f)
  {
    ByteSplits(x);
    HexValueOfDigit(x >> 4);
    HexValueOfDigit(x & 0x0f);
  }

  /** a and b have the same 122 bits outside the version and variant fields. */
  predicate AgreeOnFreeBits(a: Bytes16, b: Bytes16) {
    && (forall i: nat | i < 16 && i != 6 && i != 8 :: a[i] == b[i])
    && a[6] & 0x0f == b[6] & 0x0f
    && a[8] & 0x3f == b[8] & 0x3f
  }

  lemma StampKeepsFreeBits(x: bv8, y: bv8)
    ensures WithVersion(x) == WithVersion(y) <==> x & 0x0f == y & 0x0f
    ensures WithVariant(x) == WithVariant(y) <==> x & 0x3f == y & 0x3f
  {
  }

  /** What a reader of the text learns: the random bits, at their places, and the version and
      variant. */
  lemma UuidCarriesRandom(random: Bytes16)
    ensures ReadUuid(UuidText(Stamped(random))).Some?
    ensures var b := ReadUuid(UuidText(Stamped(random))).value;
      && |b| == 16
      && (forall i: nat | i < 16 && i != 6 && i != 8 :: b[i] == random[i])
      && b[6] & 0x0f == random[6] & 0x0f && b[6] >> 4 == 4
      && b[8] & 0x3f == random[8] & 0x3f && b[8] >> 6 == 2
  {
    ReadUuidText(Stamped(random));
    StampedParts(random[6], random[8]);
    forall i: nat | i < 16 ensures Stamped(random)[i]
      == if i == 6 then WithVersion(random[6]) else if i == 8 then WithVariant(random[8]) else random[i]
    {
      StampedAt(random, i);
    }
  }

  lemma StampedParts(x: bv8, y: bv8)
    ensures WithVersion(x) & 0x0f == x & 0x0f && WithVersion(x) >> 4 == 4
    ensures WithVariant(y) & 0x3f == y & 0x3f && WithVariant(y) >> 6 == 2
  {
  }

  /** a and b agree everywhere outside the two stamped bytes, and there after stamping. */
  predicate StampsAgree(a: Bytes16, b: Bytes16) {
    && (forall i: nat | i < 16 && i != 6 && i != 8 :: a[i] == b[i])
    && WithVersion(a[6]) == WithVersion(b[6])
    && WithVariant(a[8]) == WithVariant(b[8])
  }

  lemma StampsAgreeIff(a: Bytes16, b: Bytes16)
    ensures Stamped(a) == Stamped(b) <==> StampsAgree(a, b)
  {
    if Stamped(a) == Stamped(b) {
      StampedAt(a, 6);
      StampedAt(b, 6);
      StampedAt(a, 8);
      StampedAt(b, 8);
      forall i: nat | i < 16 && i != 6 && i != 8 ensures a[i] == b[i] {
        StampedAt(a, i);
        StampedAt(b, i);
      }
    }
  }

  lemma StampedAt(b: Bytes16, i: nat)
    requires i < 16
    ensures Stamped(b)[i] == if i == 6 then WithVersion(b[6]) else if i == 8 then WithVariant(b[8]) else b[i]
  {
  }

  /** Two random inputs give the same identifier exactly when their free bits agree. */
  lemma UuidInjectiveOnFreeBits(a: Bytes16, b: Bytes16)
    ensures UuidText(Stamped(a)) == UuidText(Stamped(b)) <==> AgreeOnFreeBits(a, b)
  {
    ReadUuidText(Stamped(a));
    ReadUuidText(Stamped(b));
    StampsAgreeIff(a, b);
    StampKeepsFreeBits(a[6], b[6]);
    StampKeepsFreeBits(a[8], b[8]);
  }
}
