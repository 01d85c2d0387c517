/** The numbers of CRC-32C: what the byte table holds, and the checksums of single bytes (util/crc32c.cc). */
module CrcNumbers {
  import opened LinearStrides
  import opened Crc32c

  /** Digit k of a hexadecimal number makes up four of its bits. */
  lemma {:induction false} HexDigit(d: seq<Digit>, k: nat)
    requires k < |d|
    ensures Hex(d)[4 * (|d| - 1 - k)..4 * (|d| - k)] == d[k]
  {
    if k > 0 {
      HexDigit(d[1..], k - 1);
    }
  }

  lemma HexBit(d: seq<Digit>, k: nat, j: nat)
    requires |d| == 8 && k < 8 && j < 4
    ensures Hex(d)[4 * (7 - k) + j] == d[k][j]
  {
    HexDigit(d, k);
    var m := 4 * (7 - k);
    assert Hex(d)[m..m + 4][j] == Hex(d)[m + j];
  }

  lemma BitStepAt(x: Word, i: nat)
    requires i < 32
    ensures BitStep(x)[i] == ((i < 31 && x[i + 1]) != (x[0] && POLYNOMIAL[i]))
  {
  }

  /** A digit after a step of the division: the digits before it and at its place, the last one, the polynomial's, and the
      new one. */
  predicate DigitStep(prev: Digit, cur: Digit, last: Digit, p: Digit, b: Digit) {
    && b[0] == (cur[1] != (last[0] && p[0])) && b[1] == (cur[2] != (last[0] && p[1]))
    && b[2] == (cur[3] != (last[0] && p[2])) && b[3] == (prev[0] != (last[0] && p[3]))
  }

  /** The digits of one number are those of the other after a step of the division. */
  predicate StepsTo(a: seq<Digit>, p: seq<Digit>, b: seq<Digit>) {
    && |a| == |p| == |b| == 8
    && DigitStep(D0, a[0], a[7], p[0], b[0]) && DigitStep(a[0], a[1], a[7], p[1], b[1])
    && DigitStep(a[1], a[2], a[7], p[2], b[2]) && DigitStep(a[2], a[3], a[7], p[3], b[3])
    && DigitStep(a[3], a[4], a[7], p[4], b[4]) && DigitStep(a[4], a[5], a[7], p[5], b[5])
    && DigitStep(a[5], a[6], a[7], p[6], b[6]) && DigitStep(a[6], a[7], a[7], p[7], b[7])
  }

  lemma DigitOfStep(a: seq<Digit>, p: seq<Digit>, b: seq<Digit>, k: nat)
    requires StepsTo(a, p, b) && k < 8
    ensures DigitStep(if k == 0 then D0 else a[k - 1], a[k], a[7], p[k], b[k])
  {
  }

  lemma DigitStepAt(prev: Digit, cur: Digit, last: Digit, p: Digit, b: Digit, j: nat)
    requires DigitStep(prev, cur, last, p, b) && j < 4
    ensures b[j] == ((if j < 3 then cur[j + 1] else prev[0]) != (last[0] && p[j]))
  {
  }

  /** The bit after bit j of digit k. */
  lemma NextBit(a: seq<Digit>, k: nat, j: nat)
    requires |a| == 8 && k < 8 && j < 4
    ensures var i := 4 * (7 - k) + j;
            (i < 31 && Hex(a)[i + 1]) == if j < 3 then a[k][j + 1] else k > 0 && a[k - 1][0]
  {
    if j < 3 {
      HexBit(a, k, j + 1);
    } else if k > 0 {
      HexBit(a, k - 1, 0);
    }
  }

  lemma BitOfStep(a: seq<Digit>, p: seq<Digit>, b: seq<Digit>, k: nat, j: nat)
    requires |a| == |p| == |b| == 8 && POLYNOMIAL == Hex(p) && k < 8 && j < 4
    requires DigitStep(if k == 0 then D0 else a[k - 1], a[k], a[7], p[k], b[k])
    ensures BitStep(Hex(a))[4 * (7 - k) + j] == Hex(b)[4 * (7 - k) + j]
  {
    DigitStepAt(if k == 0 then D0 else a[k - 1], a[k], a[7], p[k], b[k], j);
    BitStepAt(Hex(a), 4 * (7 - k) + j);
    NextBit(a, k, j);
    HexBit(a, 7, 0);
    HexBit(b, k, j);
    HexBit(p, k, j);
  }

  lemma StepOfDigits(a: seq<Digit>, p: seq<Digit>, b: seq<Digit>)
    requires StepsTo(a, p, b) && POLYNOMIAL == Hex(p)
    ensures BitStep(Hex(a)) == Hex(b)
  {
    var x: Word, y: Word := BitStep(Hex(a)), Hex(b);
    forall i | 0 <= i < 32 ensures x[i] == y[i] {
      var k, j := 7 - i / 4, i % 4;
      assert i == 4 * (7 - k) + j;
      DigitOfStep(a, p, b, k);
      BitOfStep(a, p, b, k, j);
    }
    assert x == y;
  }

  // ----- the byte table ----------------------------------------------------------------------------------------

  /** The byte with only bit j set. */
  function OneBit(j: nat): Byte
    requires j < 8
  {
    Zeros(j) + [true] + Zeros(7 - j)
  }

  /** The entry for a single bit is the polynomial, divided on over the bits above it. */
  lemma EntryOfBit(j: nat)
    requires j < 8
    ensures ByteTable(OneBit(j)) == Iterate(BitStep, 7 - j, POLYNOMIAL)
  {
    var x: Word, one: Word := Place(OneBit(j), 0), [true] + Zeros(31);
    ShiftOut(x, j);
    assert ShiftRight(x, j) == one;
    assert BitStep(one) == POLYNOMIAL by {
      assert Xor(ShiftRight(one, 1), POLYNOMIAL) == POLYNOMIAL;
    }
    IterateAdd(BitStep, j, 8 - j, x);
  }

  /** The table is linear, so that its entries for single bits determine all others. */
  lemma TableIsLinear(a: Byte, b: Byte)
    ensures ByteTable(XorBits(a, b)) == Xor(ByteTable(a), ByteTable(b))
  {
    EightBitsLinear();
    assert LinearAt(Xor, EightBits, Place(a, 0), Place(b, 0));
    assert Place(XorBits(a, b), 0) == Xor(Place(a, 0), Place(b, 0));
  }

  const CASTAGNOLI: seq<Digit> := [D8, D2, DF, D6, D3, DB, D7, D8]

  const ENTRY_80: seq<Digit> := [D8, D2, DF, D6, D3, DB, D7, D8]
  const ENTRY_40: seq<Digit> := [D4, D1, D7, DB, D1, DD, DB, DC]
  const ENTRY_20: seq<Digit> := [D2, D0, DB, DD, D8, DE, DD, DE]
  const ENTRY_10: seq<Digit> := [D1, D0, D5, DE, DC, D7, D6, DF]
  const ENTRY_08: seq<Digit> := [D8, DA, DD, D9, D5, D8, DC, DF]
  const ENTRY_04: seq<Digit> := [DC, D7, D9, DA, D9, D7, D1, DF]
  const ENTRY_02: seq<Digit> := [DE, D1, D3, DB, D7, D0, DF, D7]
  const ENTRY_01: seq<Digit> := [DF, D2, D6, DB, D8, D3, D0, D3]

  lemma EntriesFollow()
    ensures StepsTo(ENTRY_80, CASTAGNOLI, ENTRY_40)
    ensures StepsTo(ENTRY_40, CASTAGNOLI, ENTRY_20)
    ensures StepsTo(ENTRY_20, CASTAGNOLI, ENTRY_10)
    ensures StepsTo(ENTRY_10, CASTAGNOLI, ENTRY_08)
    ensures StepsTo(ENTRY_08, CASTAGNOLI, ENTRY_04)
    ensures StepsTo(ENTRY_04, CASTAGNOLI, ENTRY_02)
    ensures StepsTo(ENTRY_02, CASTAGNOLI, ENTRY_01)
  {
  }

  lemma OneStepMore(n: nat, x: Word, a: seq<Digit>, b: seq<Digit>)
    requires |a| == 8 && Iterate(BitStep, n, x) == Hex(a) && StepsTo(a, CASTAGNOLI, b)
    ensures Iterate(BitStep, n + 1, x) == Hex(b)
  {
    IterateAdd(BitStep, n, 1, x);
    StepOfDigits(a, CASTAGNOLI, b);
    assert Iterate(BitStep, 1, Iterate(BitStep, n, x)) == BitStep(Iterate(BitStep, n, x));
  }

  /** The entries for single bits are those that the table lists. */
  lemma TableOfBits()
    ensures ByteTable(OneBit(0)) == Hex(ENTRY_01)
    ensures ByteTable(OneBit(1)) == Hex(ENTRY_02)
    ensures ByteTable(OneBit(2)) == Hex(ENTRY_04)
    ensures ByteTable(OneBit(3)) == Hex(ENTRY_08)
    ensures ByteTable(OneBit(4)) == Hex(ENTRY_10)
    ensures ByteTable(OneBit(5)) == Hex(ENTRY_20)
    ensures ByteTable(OneBit(6)) == Hex(ENTRY_40)
    ensures ByteTable(OneBit(7)) == Hex(ENTRY_80)
  {
    EntriesFollow();
    var x := POLYNOMIAL;
    assert Iterate(BitStep, 0, x) == Hex(ENTRY_80);
    OneStepMore(0, x, ENTRY_80, ENTRY_40);
    OneStepMore(1, x, ENTRY_40, ENTRY_20);
    OneStepMore(2, x, ENTRY_20, ENTRY_10);
    OneStepMore(3, x, ENTRY_10, ENTRY_08);
    OneStepMore(4, x, ENTRY_08, ENTRY_04);
    OneStepMore(5, x, ENTRY_04, ENTRY_02);
    OneStepMore(6, x, ENTRY_02, ENTRY_01);
    forall j | 0 <= j < 8 ensures ByteTable(OneBit(j)) == Iterate(BitStep, 7 - j, x) {
      EntryOfBit(j);
    }
  }

  // ----- the checksum of a byte --------------------------------------------------------------------------------

  // A register of ones, divided on bit by bit.
  const ONES_0: seq<Digit> := [DF, DF, DF, DF, DF, DF, DF, DF]
  const ONES_1: seq<Digit> := [DF, DD, D0, D9, DC, D4, D8, D7]
  const ONES_2: seq<Digit> := [DF, DC, D7, D2, DD, D9, D3, DB]
  const ONES_3: seq<Digit> := [DF, DC, DC, DF, D5, D7, DE, D5]
  const ONES_4: seq<Digit> := [DF, DC, D9, D1, D9, D0, D8, DA]
  const ONES_5: seq<Digit> := [D7, DE, D4, D8, DC, D8, D4, D5]
  const ONES_6: seq<Digit> := [DB, DD, DD, D2, D5, DF, D5, DA]
  const ONES_7: seq<Digit> := [D5, DE, DE, D9, D2, DF, DA, DD]
  const ONES_8: seq<Digit> := [DA, DD, D8, D2, DA, DC, DA, DE]

  lemma OnesFollow()
    ensures StepsTo(ONES_0, CASTAGNOLI, ONES_1)
    ensures StepsTo(ONES_1, CASTAGNOLI, ONES_2)
    ensures StepsTo(ONES_2, CASTAGNOLI, ONES_3)
    ensures StepsTo(ONES_3, CASTAGNOLI, ONES_4)
    ensures StepsTo(ONES_4, CASTAGNOLI, ONES_5)
    ensures StepsTo(ONES_5, CASTAGNOLI, ONES_6)
    ensures StepsTo(ONES_6, CASTAGNOLI, ONES_7)
    ensures StepsTo(ONES_7, CASTAGNOLI, ONES_8)
  {
  }

  lemma OnesDivided()
    ensures EightBits(Hex(ONES_0)) == Hex(ONES_8)
  {
    OnesFollow();
    var x: Word := Hex(ONES_0);
    assert Iterate(BitStep, 0, x) == x;
    OneStepMore(0, x, ONES_0, ONES_1);
    OneStepMore(1, x, ONES_1, ONES_2);
    OneStepMore(2, x, ONES_2, ONES_3);
    OneStepMore(3, x, ONES_3, ONES_4);
    OneStepMore(4, x, ONES_4, ONES_5);
    OneStepMore(5, x, ONES_5, ONES_6);
    OneStepMore(6, x, ONES_6, ONES_7);
    OneStepMore(7, x, ONES_7, ONES_8);
  }

  /** Every bit is turned round by the final exclusive or. */
  lemma Inverted(a: seq<Digit>, b: seq<Digit>)
    requires |a| == |b| == 8 && forall k, j :: 0 <= k < 8 && 0 <= j < 4 ==> b[k][j] == !a[k][j]
    ensures Xor(Hex(a), CRC_XOR) == Hex(b)
  {
    var x: Word, y: Word := Xor(Hex(a), CRC_XOR), Hex(b);
    forall i | 0 <= i < 32 ensures x[i] == y[i] {
      var k, j := 7 - i / 4, i % 4;
      assert i == 4 * (7 - k) + j;
      HexBit(a, k, j);
      HexBit(b, k, j);
      HexBit(ONES_0, k, j);
    }
    assert x == y;
  }

  const SUM_OF_ZERO: seq<Digit> := [D5, D2, D7, DD, D5, D3, D5, D1]

  /** The checksum of one zero byte is 527d5351. */
  lemma ChecksumOfZero()
    ensures Crc(Zeros(32), [Zeros(8)]) == Hex(SUM_OF_ZERO)
  {
    var data: seq<Byte>, ones: Word := [Zeros(8)], Hex(ONES_0);
    assert Xor(Zeros(32), CRC_XOR) == ones;
    assert Xor(ones, Place(Zeros(8), 0)) == ones;
    assert data[1..] == [];
    OnesDivided();
    Inverted(ONES_8, SUM_OF_ZERO);
  }
}
