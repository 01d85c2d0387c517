/** CRC-32C. A register is the list of its 32 bits and a byte the list of its 8 bits, lowest bit first; shifting right
    by k drops the first k bits, and four bytes read as a little-endian word are their concatenation. */
module Crc32c {
  import opened LinearStrides

  type Word = w: seq<bool> | |w| == 32 witness Zeros(32)
  type Byte = b: seq<bool> | |b| == 8 witness Zeros(8)
  type Digit = d: seq<bool> | |d| == 4 witness Zeros(4)

  function Zeros(n: nat): (z: seq<bool>)
    ensures |z| == n && forall i :: 0 <= i < n ==> !z[i]
  {
    seq(n, i => false)
  }

  // The hexadecimal digits.
  const D0: Digit := [false, false, false, false]
  const D1: Digit := [true, false, false, false]
  const D2: Digit := [false, true, false, false]
  const D3: Digit := [true, true, false, false]
  const D4: Digit := [false, false, true, false]
  const D5: Digit := [true, false, true, false]
  const D6: Digit := [false, true, true, false]
  const D7: Digit := [true, true, true, false]
  const D8: Digit := [false, false, false, true]
  const D9: Digit := [true, false, false, true]
  const DA: Digit := [false, true, false, true]
  const DB: Digit := [true, true, false, true]
  const DC: Digit := [false, false, true, true]
  const DD: Digit := [true, false, true, true]
  const DE: Digit := [false, true, true, true]
  const DF: Digit := [true, true, true, true]

  /** The bits of a number in hexadecimal, highest digit first. */
  function Hex(digits: seq<Digit>): (b: seq<bool>)
    ensures |b| == 4 * |digits|
  {
    if digits == [] then [] else Hex(digits[1..]) + digits[0]
  }

  // The Castagnoli polynomial, lowest-order coefficient in the top bit.
  const POLYNOMIAL: Word := Hex([D8, D2, DF, D6, D3, DB, D7, D8])
  const CRC_XOR: Word := Hex([DF, DF, DF, DF, DF, DF, DF, DF])

  function XorBits(a: seq<bool>, b: seq<bool>): (r: seq<bool>)
    requires |a| == |b|
    ensures |r| == |a| && forall i :: 0 <= i < |r| ==> r[i] == (a[i] != b[i])
  {
    seq(|a|, i requires 0 <= i < |a| => a[i] != b[i])
  }

  function Xor(a: Word, b: Word): Word {
    XorBits(a, b)
  }

  function ShiftRight(x: Word, n: nat): Word
    requires n <= 32
  {
    x[n..] + Zeros(n)
  }

  /** A byte standing k bits up in a word that is clear elsewhere. */
  function Place(b: Byte, k: nat): (w: Word)
    requires k <= 24
    ensures forall i :: 0 <= i < 32 ==> w[i] == (k <= i < k + 8 && b[i - k])
  {
    var bits: seq<bool> := b;
    Zeros(k) + bits + Zeros(24 - k)
  }

  function FromBytes(b0: Byte, b1: Byte, b2: Byte, b3: Byte): Word {
    var bits: seq<bool> := b0;
    bits + b1 + b2 + b3
  }

  function ByteAt(w: Word, k: nat): Byte
    requires k < 4
  {
    w[8 * k..8 * k + 8]
  }

  lemma BytesOfWord(w: Word)
    ensures FromBytes(ByteAt(w, 0), ByteAt(w, 1), ByteAt(w, 2), ByteAt(w, 3)) == w
  {
  }

  lemma WordOfPlaces(b0: Byte, b1: Byte, b2: Byte, b3: Byte)
    ensures Xor(Place(b0, 0), Xor(Place(b1, 8), Xor(Place(b2, 16), Place(b3, 24)))) == FromBytes(b0, b1, b2, b3)
  {
  }

  /** One step of the division by the polynomial: shift out the lowest bit, and subtract when it was set. */
  function BitStep(x: Word): Word {
    if x[0] then Xor(ShiftRight(x, 1), POLYNOMIAL) else ShiftRight(x, 1)
  }

  function EightBits(x: Word): Word {
    Iterate(BitStep, 8, x)
  }

  lemma XorLaws()
    ensures Commutative(Xor)
  {
    forall a: Word, b: Word, c: Word ensures AssocAt(Xor, a, b, c) {
      assert Xor(Xor(a, b), c) == Xor(a, Xor(b, c));
    }
    forall a: Word, b: Word ensures CommAt(Xor, a, b) {
      assert Xor(a, b) == Xor(b, a);
    }
  }

  lemma BitStepLinear()
    ensures Linear(Xor, BitStep)
  {
    forall a: Word, b: Word ensures LinearAt(Xor, BitStep, a, b) {
      assert ShiftRight(Xor(a, b), 1) == Xor(ShiftRight(a, 1), ShiftRight(b, 1));
      assert BitStep(Xor(a, b)) == Xor(BitStep(a), BitStep(b));
    }
  }

  lemma EightBitsLinear()
    ensures Linear(Xor, EightBits)
  {
    BitStepLinear();
    forall a: Word, b: Word ensures LinearAt(Xor, EightBits, a, b) {
      IterateLinear(Xor, BitStep, 8, a, b);
    }
  }

  /** Bits that are clear are only shifted out. */
  lemma {:induction false} ShiftOut(x: Word, k: nat)
    requires k <= 32 && forall i :: 0 <= i < k ==> !x[i]
    ensures Iterate(BitStep, k, x) == ShiftRight(x, k)
    decreases k
  {
    if k == 0 {
      assert ShiftRight(x, 0) == x;
    } else {
      ShiftOut(ShiftRight(x, 1), k - 1);
      assert ShiftRight(ShiftRight(x, 1), k - 1) == ShiftRight(x, k);
    }
  }

  /** What the polynomial division makes of a register over a string of bytes, one bit at a time. */
  function Register(l: Word, data: seq<Byte>): Word
    decreases |data|
  {
    if data == [] then l else Register(EightBits(Xor(l, Place(data[0], 0))), data[1..])
  }

  function Crc(crc: Word, data: seq<Byte>): Word {
    Xor(Register(Xor(crc, CRC_XOR), data), CRC_XOR)
  }

  lemma {:induction false} RegisterAppend(l: Word, a: seq<Byte>, b: seq<Byte>)
    ensures Register(l, a + b) == Register(Register(l, a), b)
    decreases |a|
  {
    if a == [] {
      assert a + b == b;
    } else {
      assert (a + b)[1..] == a[1..] + b;
      RegisterAppend(EightBits(Xor(l, Place(a[0], 0))), a[1..], b);
    }
  }

  /** Extending the checksum of one string by another gives the checksum of the two together. */
  lemma CrcAppend(crc: Word, a: seq<Byte>, b: seq<Byte>)
    ensures Crc(Crc(crc, a), b) == Crc(crc, a + b)
  {
    var l := Register(Xor(crc, CRC_XOR), a);
    assert Xor(Xor(l, CRC_XOR), CRC_XOR) == l;
    RegisterAppend(Xor(crc, CRC_XOR), a, b);
  }

  /** No step of the division forgets anything: the top bit tells whether the polynomial was subtracted. */
  lemma BitStepUndone(x: Word)
    ensures (if BitStep(x)[31] then [true] + Xor(BitStep(x), POLYNOMIAL)[..31] else [false] + BitStep(x)[..31]) == x
  {
    TopCoefficient();
  }

  lemma TopCoefficient()
    ensures POLYNOMIAL[31]
  {
    assert POLYNOMIAL[31] == D8[3];
  }

  lemma {:induction false} IterateInjective(n: nat, x: Word, y: Word)
    requires Iterate(BitStep, n, x) == Iterate(BitStep, n, y)
    ensures x == y
    decreases n
  {
    if n > 0 {
      IterateInjective(n - 1, BitStep(x), BitStep(y));
      BitStepUndone(x);
      BitStepUndone(y);
    }
  }

  lemma {:induction false} RegisterInjective(l: Word, l': Word, data: seq<Byte>)
    requires Register(l, data) == Register(l', data)
    ensures l == l'
    decreases |data|
  {
    if data != [] {
      var d := Place(data[0], 0);
      RegisterInjective(EightBits(Xor(l, d)), EightBits(Xor(l', d)), data[1..]);
      IterateInjective(8, Xor(l, d), Xor(l', d));
      assert Xor(Xor(l, d), d) == l && Xor(Xor(l', d), d) == l';
    }
  }

  /** What the byte extension table holds for a byte: the byte advanced over eight bits. */
  function ByteTable(c: Byte): Word {
    EightBits(Place(c, 0))
  }

  /** What the four stride extension tables hold: a byte in each place of a word, advanced over sixteen bytes. */
  function StrideTable(s: nat, c: Byte): Word
    requires s < 4
  {
    Iterate(EightBits, 16, Place(c, 24 - 8 * s))
  }

  /** The table lookup advances the whole register over a byte. */
  lemma LookupIsEightBits(x: Word)
    ensures Xor(ByteTable(x[..8]), ShiftRight(x, 8)) == EightBits(x)
    ensures Xor(ShiftRight(x, 8), ByteTable(x[..8])) == EightBits(x)
  {
    var low: Word, high: Word := Place(x[..8], 0), Zeros(8) + x[8..];
    EightBitsLinear();
    assert LinearAt(Xor, EightBits, low, high);
    assert x == Xor(low, high);
    ShiftOut(high, 8);
    assert ShiftRight(high, 8) == ShiftRight(x, 8);
    XorLaws();
    assert CommAt(Xor, ByteTable(x[..8]), ShiftRight(x, 8));
  }

  /** Takes in one byte. */
  method Step1(l: Word, data: seq<Byte>, p: nat) returns (r: Word)
    requires p < |data|
    ensures Register(r, data[p + 1..]) == Register(l, data[p..])
  {
    r := Xor(ByteTable(XorBits(l[..8], data[p])), ShiftRight(l, 8));
    LookupIsEightBits(Xor(l, Place(data[p], 0)));
    LowByteOnly(l, data[p]);
    NextByte(l, data, p);
  }

  lemma LowByteOnly(l: Word, b: Byte)
    ensures Xor(l, Place(b, 0))[..8] == XorBits(l[..8], b)
    ensures ShiftRight(Xor(l, Place(b, 0)), 8) == ShiftRight(l, 8)
  {
  }

  function ReadUint32LE(data: seq<Byte>, p: nat): Word
    requires p + 4 <= |data|
  {
    FromBytes(data[p], data[p + 1], data[p + 2], data[p + 3])
  }

  /** What a stride holds after its register went over sixteen bytes and took in the next word. */
  function Advanced(c: Word, w: Word): Word {
    Xor(w, Iterate(EightBits, 16, c))
  }

  /** One of the four strides takes in its next word. */
  method Step4(c: Word, w: Word) returns (r: Word)
    ensures r == Advanced(c, w)
  {
    r := AddStrides(w, ByteAt(c, 0), ByteAt(c, 1), ByteAt(c, 2), ByteAt(c, 3));
    StridesAreSixteenBytes(w, ByteAt(c, 0), ByteAt(c, 1), ByteAt(c, 2), ByteAt(c, 3));
    BytesOfWord(c);
  }

  function AddStrides(w: Word, b0: Byte, b1: Byte, b2: Byte, b3: Byte): Word {
    Xor(Xor(Xor(Xor(w, StrideTable(3, b0)), StrideTable(2, b1)), StrideTable(1, b2)), StrideTable(0, b3))
  }

  /** The four lookups of a stride advance its register over sixteen bytes. */
  lemma StridesAreSixteenBytes(w: Word, b0: Byte, b1: Byte, b2: Byte, b3: Byte)
    ensures AddStrides(w, b0, b1, b2, b3) == Advanced(FromBytes(b0, b1, b2, b3), w)
  {
    XorLaws();
    EightBitsLinear();
    FourParts(Xor, EightBits, 16, w, Place(b0, 0), Place(b1, 8), Place(b2, 16), Place(b3, 24));
    WordOfPlaces(b0, b1, b2, b3);
  }

  /** Four bytes taken in one at a time are one word taken in. */
  lemma WordIsFourBytes(l: Word, data: seq<Byte>, p: nat)
    requires p + 4 <= |data|
    ensures Register(l, data[p..]) == Register(Iterate(EightBits, 4, Xor(l, ReadUint32LE(data, p))), data[p + 4..])
  {
    var d0, d1, d2, d3 := data[p], data[p + 1], data[p + 2], data[p + 3];
    Lower(d1, 8); Lower(d2, 16); Lower(d2, 8); Lower(d3, 24); Lower(d3, 16); Lower(d3, 8);
    XorLaws();
    EightBitsLinear();
    FourBytes(Xor, EightBits, l, Place(d0, 0), Place(d1, 0), Place(d2, 0), Place(d3, 0),
              Place(d1, 8), Place(d2, 16), Place(d2, 8), Place(d3, 24), Place(d3, 16), Place(d3, 8));
    WordOfPlaces(d0, d1, d2, d3);
    FourRegisterSteps(l, data, p);
  }

  lemma Lower(b: Byte, k: nat)
    requires 8 <= k <= 24
    ensures EightBits(Place(b, k)) == Place(b, k - 8)
  {
    ShiftOut(Place(b, k), 8);
    assert ShiftRight(Place(b, k), 8) == Place(b, k - 8);
  }

  lemma FourRegisterSteps(l: Word, data: seq<Byte>, p: nat)
    requires p + 4 <= |data|
    ensures Register(l, data[p..])
         == Register(EightBits(Xor(EightBits(Xor(EightBits(Xor(EightBits(Xor(
                       l, Place(data[p], 0))), Place(data[p + 1], 0))), Place(data[p + 2], 0))), Place(data[p + 3], 0))),
                     data[p + 4..])
  {
    NextByte(l, data, p);
    var l1 := EightBits(Xor(l, Place(data[p], 0)));
    NextByte(l1, data, p + 1);
    var l2 := EightBits(Xor(l1, Place(data[p + 1], 0)));
    NextByte(l2, data, p + 2);
    NextByte(EightBits(Xor(l2, Place(data[p + 2], 0))), data, p + 3);
  }

  lemma NextByte(l: Word, data: seq<Byte>, p: nat)
    requires p < |data|
    ensures Register(l, data[p..]) == Register(EightBits(Xor(l, Place(data[p], 0))), data[p + 1..])
  {
    assert data[p..][1..] == data[p + 1..];
  }

  function Combined(c0: Word, c1: Word, c2: Word, c3: Word): Word {
    Combine(Xor, EightBits, c0, c1, c2, c3)
  }

  lemma LoadSwath(l: Word, data: seq<Byte>, p: nat)
    requires p + 16 <= |data|
    ensures Register(l, data[p..])
         == Register(Combined(Xor(ReadUint32LE(data, p), l), ReadUint32LE(data, p + 4), ReadUint32LE(data, p + 8),
                              ReadUint32LE(data, p + 12)), data[p + 16..])
  {
    XorLaws();
    var w0, w1 := ReadUint32LE(data, p), ReadUint32LE(data, p + 4);
    var w2, w3 := ReadUint32LE(data, p + 8), ReadUint32LE(data, p + 12);
    WordIsFourBytes(l, data, p);
    assert CommAt(Xor, w0, l);
    var l1 := Iterate(EightBits, 4, Xor(w0, l));
    WordIsFourBytes(l1, data, p + 4);
    assert CommAt(Xor, w1, l1);
    var l2 := Iterate(EightBits, 4, Xor(w1, l1));
    WordIsFourBytes(l2, data, p + 8);
    assert CommAt(Xor, w2, l2);
    var l3 := Iterate(EightBits, 4, Xor(w2, l2));
    WordIsFourBytes(l3, data, p + 12);
    assert CommAt(Xor, w3, l3);
  }

  /** Giving the next word to the oldest stride and making that stride the newest takes the word in. */
  lemma NextWord(c0: Word, c1: Word, c2: Word, c3: Word, data: seq<Byte>, p: nat)
    requires p + 4 <= |data|
    ensures Register(Combined(c0, c1, c2, c3), data[p..])
         == Register(Combined(c1, c2, c3, Advanced(c0, ReadUint32LE(data, p))), data[p + 4..])
  {
    var w, l := ReadUint32LE(data, p), Combined(c0, c1, c2, c3);
    XorLaws();
    EightBitsLinear();
    RotateStep(Xor, EightBits, c0, c1, c2, c3, w);
    WordIsFourBytes(l, data, p);
    assert CommAt(Xor, w, l);
  }

  lemma NextSwath(c0: Word, c1: Word, c2: Word, c3: Word, data: seq<Byte>, p: nat)
    requires p + 16 <= |data|
    ensures Register(Combined(c0, c1, c2, c3), data[p..])
         == Register(Combined(Advanced(c0, ReadUint32LE(data, p)), Advanced(c1, ReadUint32LE(data, p + 4)),
                              Advanced(c2, ReadUint32LE(data, p + 8)), Advanced(c3, ReadUint32LE(data, p + 12))),
                     data[p + 16..])
  {
    var d0, d1 := Advanced(c0, ReadUint32LE(data, p)), Advanced(c1, ReadUint32LE(data, p + 4));
    var d2 := Advanced(c2, ReadUint32LE(data, p + 8));
    NextWord(c0, c1, c2, c3, data, p);
    NextWord(c1, c2, c3, d0, data, p + 4);
    NextWord(c2, c3, d0, d1, data, p + 8);
    NextWord(c3, d0, d1, d2, data, p + 12);
  }

  method LookUp(x: Word) returns (r: Word)
    ensures r == EightBits(x)
  {
    LookupIsEightBits(x);
    r := Xor(ShiftRight(x, 8), ByteTable(x[..8]));
  }

  /** Four bytes already loaded into a word. */
  method Step4W(w: Word, l: Word) returns (r: Word)
    ensures r == Iterate(EightBits, 4, Xor(w, l))
  {
    r := Xor(w, l);
    Iterate4(EightBits, r);
    for i := 0 to 4
      invariant i == 0 ==> r == Xor(w, l)
      invariant i == 1 ==> r == EightBits(Xor(w, l))
      invariant i == 2 ==> r == EightBits(EightBits(Xor(w, l)))
      invariant i == 3 ==> r == EightBits(EightBits(EightBits(Xor(w, l))))
      invariant i == 4 ==> r == Iterate(EightBits, 4, Xor(w, l))
    {
      r := LookUp(r);
    }
  }

  /** The first multiple of four at or above an address. */
  function RoundUp(address: nat): (x: nat)
    ensures address <= x < address + 4 && x % 4 == 0
  {
    (address + 3) / 4 * 4
  }

  /** Bytes up to an aligned address, then sixteen at a time in four strides, then words, then the last bytes. */
  method Extend(crc: Word, data: seq<Byte>, address: nat) returns (r: Word)
    ensures r == Crc(crc, data)
  {
    var p, e := 0, |data|;
    var l := Xor(crc, CRC_XOR);
    assert data[0..] == data;
    var x := RoundUp(address) - address;
    if x <= e {
      l := Bytes(l, data, 0, x);
      p := x;
    }
    if e - p >= 16 {
      l, p := Strides(l, data, p);
    }
    l := Bytes(l, data, p, e);
    r := Xor(l, CRC_XOR);
  }

  method Bytes(l: Word, data: seq<Byte>, start: nat, end: nat) returns (r: Word)
    requires start <= end <= |data|
    ensures Register(r, data[end..]) == Register(l, data[start..])
  {
    var p := start;
    r := l;
    ghost var goal := Register(l, data[start..]);
    while p != end
      invariant start <= p <= end
      invariant Register(r, data[p..]) == goal
    {
      var next := Step1(r, data, p);
      assert Register(next, data[p + 1..]) == goal;
      r, p := next, p + 1;
    }
  }

  /** The swath loop and the word loop after it. */
  method Strides(l: Word, data: seq<Byte>, start: nat) returns (r: Word, p: nat)
    requires start + 16 <= |data|
    ensures start + 16 <= p <= |data| && |data| - p < 4
    ensures Register(r, data[p..]) == Register(l, data[start..])
  {
    LoadSwath(l, data, start);
    var crc0 := Xor(ReadUint32LE(data, start), l);
    var crc1, crc2 := ReadUint32LE(data, start + 4), ReadUint32LE(data, start + 8);
    var crc3 := ReadUint32LE(data, start + 12);
    crc0, crc1, crc2, crc3, p := Swaths(crc0, crc1, crc2, crc3, data, start + 16);
    crc0, crc1, crc2, crc3, p := Words(crc0, crc1, crc2, crc3, data, p);
    r := CombineStrides(crc0, crc1, crc2, crc3);
  }

  /** One word at a time, each to the oldest stride. */
  method Words(c0: Word, c1: Word, c2: Word, c3: Word, data: seq<Byte>, start: nat)
    returns (crc0: Word, crc1: Word, crc2: Word, crc3: Word, p: nat)
    requires start <= |data|
    ensures start <= p <= |data| && |data| - p < 4
    ensures Register(Combined(crc0, crc1, crc2, crc3), data[p..]) == Register(Combined(c0, c1, c2, c3), data[start..])
  {
    crc0, crc1, crc2, crc3, p := c0, c1, c2, c3, start;
    while |data| - p >= 4
      invariant start <= p <= |data|
      invariant Register(Combined(crc0, crc1, crc2, crc3), data[p..]) == Register(Combined(c0, c1, c2, c3), data[start..])
    {
      NextWord(crc0, crc1, crc2, crc3, data, p);
      var tmp := Step4(crc0, ReadUint32LE(data, p));
      crc0, crc1, crc2, crc3 := crc1, crc2, crc3, tmp;
      p := p + 4;
    }
  }

  method Swaths(c0: Word, c1: Word, c2: Word, c3: Word, data: seq<Byte>, start: nat)
    returns (crc0: Word, crc1: Word, crc2: Word, crc3: Word, p: nat)
    requires start <= |data|
    ensures start <= p <= |data| && |data| - p < 16
    ensures Register(Combined(crc0, crc1, crc2, crc3), data[p..]) == Register(Combined(c0, c1, c2, c3), data[start..])
  {
    crc0, crc1, crc2, crc3, p := c0, c1, c2, c3, start;
    while |data| - p >= 16
      invariant start <= p <= |data|
      invariant Register(Combined(crc0, crc1, crc2, crc3), data[p..]) == Register(Combined(c0, c1, c2, c3), data[start..])
    {
      crc0, crc1, crc2, crc3 := OneSwath(crc0, crc1, crc2, crc3, data, p);
      p := p + 16;
    }
  }

  method OneSwath(c0: Word, c1: Word, c2: Word, c3: Word, data: seq<Byte>, p: nat)
    returns (crc0: Word, crc1: Word, crc2: Word, crc3: Word)
    requires p + 16 <= |data|
    ensures Register(Combined(crc0, crc1, crc2, crc3), data[p + 16..]) == Register(Combined(c0, c1, c2, c3), data[p..])
  {
    NextSwath(c0, c1, c2, c3, data, p);
    crc0 := Step4(c0, ReadUint32LE(data, p));
    crc1 := Step4(c1, ReadUint32LE(data, p + 4));
    crc2 := Step4(c2, ReadUint32LE(data, p + 8));
    crc3 := Step4(c3, ReadUint32LE(data, p + 12));
  }

  method CombineStrides(c0: Word, c1: Word, c2: Word, c3: Word) returns (l: Word)
    ensures l == Combined(c0, c1, c2, c3)
  {
    assert Xor(c0, Zeros(32)) == c0;
    l := Step4W(c0, Zeros(32));
    l := Step4W(c1, l);
    l := Step4W(c2, l);
    l := Step4W(c3, l);
  }

  /** An error confined to four bytes in a row, anywhere in a string, always changes the checksum. */
  lemma BurstDetected(crc: Word, before: seq<Byte>, w: seq<Byte>, w': seq<Byte>, after: seq<Byte>)
    requires |w| == |w'| == 4 && w != w'
    ensures Crc(crc, before + w + after) != Crc(crc, before + w' + after)
  {
    var l := Register(Xor(crc, CRC_XOR), before);
    var m, m' := Register(l, w), Register(l, w');
    RegisterAppend(Xor(crc, CRC_XOR), before + w, after);
    RegisterAppend(Xor(crc, CRC_XOR), before, w);
    RegisterAppend(Xor(crc, CRC_XOR), before + w', after);
    RegisterAppend(Xor(crc, CRC_XOR), before, w');
    if Crc(crc, before + w + after) == Crc(crc, before + w' + after) {
      XorCancel(Register(m, after), Register(m', after), CRC_XOR);
      RegisterInjective(m, m', after);
      FourBytesTold(l, w, w');
      assert false;
    }
  }

  lemma XorCancel(x: Word, y: Word, z: Word)
    requires Xor(x, z) == Xor(y, z)
    ensures x == y
  {
    assert Xor(Xor(x, z), z) == x && Xor(Xor(y, z), z) == y;
  }

  lemma FourBytesTold(l: Word, w: seq<Byte>, w': seq<Byte>)
    requires |w| == |w'| == 4 && Register(l, w) == Register(l, w')
    ensures w == w'
  {
    RegisterOfWord(l, w);
    RegisterOfWord(l, w');
    var v, v' := ReadUint32LE(w, 0), ReadUint32LE(w', 0);
    BytesInjective(4, Xor(l, v), Xor(l, v'));
    XorLaws();
    assert CommAt(Xor, l, v) && CommAt(Xor, l, v');
    XorCancel(v, v', l);
    SameBytes(w, w');
  }

  lemma RegisterOfWord(l: Word, w: seq<Byte>)
    requires |w| == 4
    ensures Register(l, w) == Iterate(EightBits, 4, Xor(l, ReadUint32LE(w, 0)))
  {
    assert w[0..] == w && w[4..] == [];
    WordIsFourBytes(l, w, 0);
  }

  lemma {:induction false} BytesInjective(n: nat, x: Word, y: Word)
    requires Iterate(EightBits, n, x) == Iterate(EightBits, n, y)
    ensures x == y
    decreases n
  {
    if n > 0 {
      BytesInjective(n - 1, EightBits(x), EightBits(y));
      IterateInjective(8, x, y);
    }
  }

  lemma SameBytes(w: seq<Byte>, w': seq<Byte>)
    requires |w| == |w'| == 4 && ReadUint32LE(w, 0) == ReadUint32LE(w', 0)
    ensures w == w'
  {
    var x := ReadUint32LE(w, 0);
    assert ByteAt(x, 0) == w[0] && ByteAt(x, 1) == w[1] && ByteAt(x, 2) == w[2] && ByteAt(x, 3) == w[3];
    assert ByteAt(x, 0) == w'[0] && ByteAt(x, 1) == w'[1] && ByteAt(x, 2) == w'[2] && ByteAt(x, 3) == w'[3];
  }
}
