/** The table-driven CRC of `host/axiom/snapshot.py`, proved equal to the bit-serial CRC, and
    what that CRC detects. */
module Crc64 {

  /** The reflected polynomial: the last basis constant. */
  const POLY: bv64 := 0x95AC9329AC4BC9B5
  const TOP: bv64 := 0x8000_0000_0000_0000

  const BASIS: seq<bv64> := [
    0x7AD870C830358979,
    0xF5B0E190606B12F2,
    0xC038E5739841B68F,
    0xAB28ECB46814FE75,
    0x7D08FF3B88BE6F81,
    0xFA11FE77117CDF02,
    0xDF7ADABD7A6E2D6F,
    0x95AC9329AC4BC9B5
  ]

  // ----- Register operations -----

  function Xor(a: bv64, b: bv64): bv64 { a ^ b }
  function Half(c: bv64): bv64 { c >> 1 }
  predicate Odd(c: bv64) { c & 1 == 1 }
  function Bit(b: bool): bv64 { if b then 1 else 0 }
  function Feedback(odd: bool): bv64 { if odd then POLY else 0 }

  lemma XorAssoc(a: bv64, b: bv64, c: bv64)
    ensures Xor(Xor(a, b), c) == Xor(a, Xor(b, c))
  {
    assert (a ^ b) ^ c == a ^ (b ^ c);
  }

  lemma XorComm(a: bv64, b: bv64)
    ensures Xor(a, b) == Xor(b, a)
    ensures Xor(a, a) == 0 && Xor(a, 0) == a && Xor(0, a) == a
  {
  }

  lemma XorSwap(a: bv64, b: bv64, c: bv64, d: bv64)
    ensures Xor(Xor(a, b), Xor(c, d)) == Xor(Xor(a, c), Xor(b, d))
  {
    hide Xor;
    XorAssoc(a, b, Xor(c, d));
    XorAssoc(b, c, d);
    XorComm(b, c);
    XorAssoc(c, b, d);
    XorAssoc(a, c, Xor(b, d));
  }

  lemma XorEqual(a: bv64, b: bv64)
    ensures Xor(a, b) == 0 <==> a == b
  {
    hide Xor;
    XorAssoc(a, b, b);
    XorComm(a, b);
    XorComm(b, a);
  }

  lemma HalfXor(a: bv64, b: bv64)
    ensures Half(Xor(a, b)) == Xor(Half(a), Half(b))
    ensures Odd(Xor(a, b)) == (Odd(a) != Odd(b))
  {
  }

  lemma FeedbackXor(p: bool, q: bool)
    ensures Feedback(p != q) == Xor(Feedback(p), Feedback(q))
    ensures Bit(p != q) == Xor(Bit(p), Bit(q))
  {
  }

  lemma BitFacts(b: bool)
    ensures Half(Bit(b)) == 0 && Odd(Bit(b)) == b && (Bit(b) == 0 <==> !b)
  {
  }

  // ----- The reference: one bit at a time -----

  /** One step of the reflected shift register. */
  function Step(c: bv64): bv64 {
    Xor(Half(c), Feedback(Odd(c)))
  }

  function Steps(c: bv64, n: nat): bv64
    decreases n
  {
    if n == 0 then c else Steps(Step(c), n - 1)
  }

  /** Feeding message bits: each is added to the register before a step. */
  function Absorb(c: bv64, bits: seq<bool>): bv64
    decreases bits
  {
    if bits == [] then c else Absorb(Step(Xor(c, Bit(bits[0]))), bits[1..])
  }

  /** Eight bit-serial steps for each byte. */
  function BitSerial(data: seq<bv8>, crc: bv64): bv64
    decreases data
  {
    if data == [] then crc else BitSerial(data[1..], Steps(Xor(crc, data[0] as bv64), 8))
  }

  lemma StepLinear(a: bv64, b: bv64)
    ensures Step(Xor(a, b)) == Xor(Step(a), Step(b))
  {
    hide Xor, Half, Odd, Feedback;
    HalfXor(a, b);
    FeedbackXor(Odd(a), Odd(b));
    XorSwap(Half(a), Feedback(Odd(a)), Half(b), Feedback(Odd(b)));
  }

  /** The register is linear: two runs differ by the run of the difference. */
  lemma {:induction false} AbsorbLinear(a: bv64, x: seq<bool>, b: bv64, y: seq<bool>)
    requires |x| == |y|
    ensures Xor(Absorb(a, x), Absorb(b, y)) == Absorb(Xor(a, b), Difference(x, y))
    decreases |x|
  {
    hide *;
    if x == [] {
      AbsorbNothing(a);
      AbsorbNothing(b);
      AbsorbNothing(Xor(a, b));
      assert y == [] && Difference(x, y) == [];
    } else {
      var a', b' := Xor(a, Bit(x[0])), Xor(b, Bit(y[0]));
      var d := Difference(x, y);
      StepLinear(a', b');
      XorSwap(a, Bit(x[0]), b, Bit(y[0]));
      FeedbackXor(x[0], y[0]);
      AbsorbLinear(Step(a'), x[1..], Step(b'), y[1..]);
      assert d[1..] == Difference(x[1..], y[1..]);
      AbsorbStep(a, x);
      AbsorbStep(b, y);
      AbsorbStep(Xor(a, b), d);
    }
  }

  lemma AbsorbStep(c: bv64, x: seq<bool>)
    requires x != []
    ensures Absorb(c, x) == Absorb(Step(Xor(c, Bit(x[0]))), x[1..])
  {
    hide Xor, Bit, Step;
  }

  function Difference(x: seq<bool>, y: seq<bool>): (d: seq<bool>)
    requires |x| == |y|
    ensures |d| == |x|
    ensures forall i :: 0 <= i < |d| ==> d[i] == (x[i] != y[i])
  {
    seq(|x|, i requires 0 <= i < |x| => x[i] != y[i])
  }

  lemma {:induction false} AbsorbConcat(c: bv64, x: seq<bool>, y: seq<bool>)
    ensures Absorb(c, x + y) == Absorb(Absorb(c, x), y)
    decreases |x|
  {
    hide Xor, Bit, Step;
    if x == [] {
      assert x + y == y;
    } else {
      assert (x + y)[1..] == x[1..] + y;
      AbsorbConcat(Step(Xor(c, Bit(x[0]))), x[1..], y);
    }
  }

  // ----- The table -----

  predicate BitSet(v: bv8, n: nat)
    requires n < 8
  {
    (v >> n) & 1 == 1
  }

  /** The exclusive or of the basis constants of the set bits of v, from bit n on. */
  function EntryFrom(v: bv8, n: nat): bv64
    requires n <= 8
    decreases 8 - n
  {
    if n == 8 then 0 else Xor(if BitSet(v, n) then BASIS[n] else 0, EntryFrom(v, n + 1))
  }

  /** `CRC64_TABLE` of `host/axiom/snapshot.py`. */
  const CRC64_TABLE: seq<bv64> := seq(256, i requires 0 <= i < 256 => TableEntry(i))

  function TableEntry(i: int): bv64
    requires 0 <= i < 256
  {
    EntryFrom(i as bv8, 0)
  }

  lemma TableAt(v: bv8)
    ensures (v as int) < 256 && CRC64_TABLE[v as int] == EntryFrom(v, 0)
  {
    assert (v as int) as bv8 == v;
  }

  function Halves(c: bv64, n: nat): bv64
    decreases n
  {
    if n == 0 then c else Halves(Half(c), n - 1)
  }

  /** The n low bits of x, least significant first. */
  function BitsOf(x: bv64, n: nat): (s: seq<bool>)
    ensures |s| == n
    decreases n
  {
    if n == 0 then [] else [Odd(x)] + BitsOf(Half(x), n - 1)
  }

  lemma HalfEightTimes(x: bv64)
    ensures Half(Half(Half(Half(Half(Half(Half(Half(x)))))))) == x >> 8
  {
  }

  lemma Halves8(x: bv64)
    ensures Halves(x, 8) == High(x)
  {
    hide Half;
    HalfEightTimes(x);
    assert Halves(x, 8) == Halves(Half(Half(Half(Half(x)))), 4);
  }

  /** The basis constants are the powers of the polynomial: eight steps of bit n, n = 0..7. */
  lemma BasisIsSteps(n: nat)
    requires n < 8
    ensures BASIS[n] == Steps(1, 8 - n)
  {
    assert Step(1) == BASIS[7];
    assert Step(BASIS[7]) == BASIS[6];
    assert Step(BASIS[6]) == BASIS[5];
    assert Step(BASIS[5]) == BASIS[4];
    assert Step(BASIS[4]) == BASIS[3];
    assert Step(BASIS[3]) == BASIS[2];
    assert Step(BASIS[2]) == BASIS[1];
    assert Step(BASIS[1]) == BASIS[0];
  }

  /** Feeding n bits of x is n steps of the register with x added, up to the bits not yet fed. */
  lemma {:induction false} StepsAreAbsorb(c: bv64, x: bv64, n: nat)
    ensures Steps(Xor(c, x), n) == Xor(Absorb(c, BitsOf(x, n)), Halves(x, n))
    decreases n
  {
    hide Xor, Half, Odd, Bit, Step;
    if n > 0 {
      var low := Bit(Odd(x));
      StepOfSplit(c, x);
      StepsAreAbsorb(Step(Xor(c, low)), Half(x), n - 1);
      assert BitsOf(x, n)[1..] == BitsOf(Half(x), n - 1);
    }
  }

  /** x is its lowest bit plus an even rest, and a step of an even register is a shift. */
  lemma StepOfSplit(c: bv64, x: bv64)
    ensures Step(Xor(c, x)) == Xor(Step(Xor(c, Bit(Odd(x)))), Half(x))
  {
    hide Xor, Half, Odd, Bit;
    var low := Bit(Odd(x));
    var rest := Xor(low, x);
    BitFacts(Odd(x));
    HalfXor(low, x);
    XorComm(Half(x), 0);
    StepLinear(Xor(c, low), rest);
    XorAssoc(low, low, x);
    XorComm(low, low);
    XorComm(x, 0);
    XorAssoc(c, low, rest);
    FeedbackXor(false, false);
    XorComm(Feedback(false), Feedback(false));
  }

  function Zeros(n: nat): (s: seq<bool>)
    ensures |s| == n && forall i :: 0 <= i < n ==> !s[i]
  {
    seq(n, _ => false)
  }

  lemma {:induction false} AbsorbZeros(c: bv64, n: nat)
    ensures Absorb(c, Zeros(n)) == Steps(c, n)
    decreases n
  {
    hide Xor, Step;
    if n > 0 {
      XorComm(c, 0);
      assert Zeros(n)[1..] == Zeros(n - 1);
      AbsorbZeros(Step(c), n - 1);
    }
  }

  /** A leading bit contributes the steps of 1, or nothing. */
  lemma AbsorbLead(b: bool, rest: seq<bool>)
    ensures Absorb(0, [b] + rest) == Xor(if b then Steps(1, |rest| + 1) else 0, Absorb(0, rest))
  {
    hide Xor, Step;
    var s := Step(Bit(b));
    XorComm(Bit(b), 0);
    assert ([b] + rest)[1..] == rest;
    AbsorbLinear(s, Zeros(|rest|), 0, rest);
    assert Difference(Zeros(|rest|), rest) == rest;
    XorComm(s, 0);
    AbsorbZeros(s, |rest|);
    if !b {
      StepZero();
      StepsZero(|rest|);
    }
  }

  lemma StepZero()
    ensures Step(0) == 0
  {
  }

  lemma {:induction false} StepsZero(n: nat)
    ensures Steps(0, n) == 0
  {
    StepZero();
    if n > 0 {
      StepsZero(n - 1);
    }
  }

  // ----- Bytes as bits -----

  /** The bits of a byte in the order in which the register takes them. */
  function ByteBits(v: bv8): (s: seq<bool>)
    ensures |s| == 8
  {
    seq(8, n requires 0 <= n < 8 => BitSet(v, n))
  }

  function Bits(data: seq<bv8>): (s: seq<bool>)
    ensures |s| == 8 * |data|
  {
    if data == [] then [] else ByteBits(data[0]) + Bits(data[1..])
  }

  predicate LowByte(x: bv64, v: bv8) { v as bv64 == x & 0xFF }

  lemma LowBitsAgree(x: bv64, v: bv8)
    requires LowByte(x, v)
    ensures Odd(x >> 0) == BitSet(v, 0)
    ensures Odd(x >> 1) == BitSet(v, 1)
    ensures Odd(x >> 2) == BitSet(v, 2)
    ensures Odd(x >> 3) == BitSet(v, 3)
    ensures Odd(x >> 4) == BitSet(v, 4)
    ensures Odd(x >> 5) == BitSet(v, 5)
    ensures Odd(x >> 6) == BitSet(v, 6)
    ensures Odd(x >> 7) == BitSet(v, 7)
  {
  }

  lemma HalfChain(x: bv64)
    ensures Half(x) == x >> 1
    ensures Half(Half(x)) == x >> 2
    ensures Half(Half(Half(x))) == x >> 3
    ensures Half(Half(Half(Half(x)))) == x >> 4
    ensures Half(Half(Half(Half(Half(x))))) == x >> 5
    ensures Half(Half(Half(Half(Half(Half(x)))))) == x >> 6
    ensures Half(Half(Half(Half(Half(Half(Half(x))))))) == x >> 7
  {
  }

  lemma HalvesChain(x: bv64)
    ensures Halves(x, 1) == Half(x)
    ensures Halves(x, 2) == Half(Half(x))
    ensures Halves(x, 3) == Half(Half(Half(x)))
    ensures Halves(x, 4) == Half(Half(Half(Half(x))))
    ensures Halves(x, 5) == Half(Half(Half(Half(Half(x)))))
    ensures Halves(x, 6) == Half(Half(Half(Half(Half(Half(x))))))
    ensures Halves(x, 7) == Half(Half(Half(Half(Half(Half(Half(x)))))))
  {
    hide Half;
  }

  lemma HalvesAgree(x: bv64, v: bv8)
    requires LowByte(x, v)
    ensures Odd(Halves(x, 0)) == BitSet(v, 0)
    ensures Odd(Halves(x, 1)) == BitSet(v, 1)
    ensures Odd(Halves(x, 2)) == BitSet(v, 2)
    ensures Odd(Halves(x, 3)) == BitSet(v, 3)
    ensures Odd(Halves(x, 4)) == BitSet(v, 4)
    ensures Odd(Halves(x, 5)) == BitSet(v, 5)
    ensures Odd(Halves(x, 6)) == BitSet(v, 6)
    ensures Odd(Halves(x, 7)) == BitSet(v, 7)
  {
    hide Half, Odd, BitSet, Halves, LowByte;
    HalvesStart(x);
    HalvesChain(x);
    HalfChain(x);
    LowBitsAgree(x, v);
    assert x >> 0 == x;
  }

  lemma HalvesStart(x: bv64)
    ensures Halves(x, 0) == x
  {
  }

  lemma {:induction false} BitsOfAt(x: bv64, n: nat, i: nat)
    requires i < n
    ensures BitsOf(x, n)[i] == Odd(Halves(x, i))
    decreases n
  {
    hide Odd, Half;
    if i > 0 {
      BitsOfAt(Half(x), n - 1, i - 1);
    }
  }

  lemma HalvesAgreeAt(x: bv64, v: bv8, n: nat)
    requires LowByte(x, v) && n < 8
    ensures Odd(Halves(x, n)) == BitSet(v, n)
  {
    hide Odd, Halves, BitSet, LowByte;
    HalvesAgree(x, v);
    assert n == 0 || n == 1 || n == 2 || n == 3 || n == 4 || n == 5 || n == 6 || n == 7;
  }

  lemma BitsOfIsByteBits(x: bv64, v: bv8)
    requires LowByte(x, v)
    ensures BitsOf(x, 8) == ByteBits(v)
  {
    hide Odd, Halves, BitSet, BitsOf, LowByte;
    forall i | 0 <= i < 8 ensures BitsOf(x, 8)[i] == ByteBits(v)[i] {
      BitsOfAt(x, 8, i);
      HalvesAgreeAt(x, v, i);
    }
  }

  // ----- Fast form refines simple form -----

  /** A table entry is the register after eight steps of that byte. */
  lemma {:induction false} EntryIsAbsorb(v: bv8, n: nat)
    requires n <= 8
    ensures EntryFrom(v, n) == Absorb(0, ByteBits(v)[n..])
    decreases 8 - n
  {
    hide Xor, Step, BitSet;
    if n < 8 {
      EntryIsAbsorb(v, n + 1);
      var rest := ByteBits(v)[n + 1..];
      assert ByteBits(v)[n..] == [ByteBits(v)[n]] + rest;
      AbsorbLead(BitSet(v, n), rest);
      BasisIsSteps(n);
    }
  }

  lemma ByteIsLow(b: bv8)
    ensures LowByte(b as bv64, b) && High(b as bv64) == 0
  {
  }

  /** Eight steps with a byte added are the feeding of its bits. */
  lemma StepsAreByteBits(c: bv64, b: bv8)
    ensures Steps(Xor(c, b as bv64), 8) == Absorb(c, ByteBits(b))
  {
    hide Xor, Steps, Absorb, BitsOf, Halves, LowByte, High;
    ByteIsLow(b);
    StepsAreAbsorb(c, b as bv64, 8);
    BitsOfIsByteBits(b as bv64, b);
    Halves8(b as bv64);
    XorComm(Absorb(c, ByteBits(b)), 0);
  }

  /** The table index: the low byte of the register with the message byte added. */
  function Index(crc: bv64, b: bv8): bv8 {
    ((crc ^ (b as bv64)) & 0xFF) as bv8
  }

  function High(crc: bv64): bv64 { crc >> 8 }

  lemma IndexIsLow(crc: bv64, b: bv8)
    ensures LowByte(Xor(crc, b as bv64), Index(crc, b))
    ensures High(Xor(crc, b as bv64)) == High(crc)
  {
  }

  /** One table lookup is eight bit-serial steps. */
  lemma LookupIsSteps(crc: bv64, b: bv8)
    ensures Xor(EntryFrom(Index(crc, b), 0), High(crc)) == Steps(Xor(crc, b as bv64), 8)
  {
    hide Xor, Steps, Absorb, BitsOf, Halves, LowByte, Index, High, EntryFrom;
    var x, v := Xor(crc, b as bv64), Index(crc, b);
    IndexIsLow(crc, b);
    EntryIsAbsorb(v, 0);
    assert ByteBits(v)[0..] == ByteBits(v);
    XorComm(0, x);
    XorComm(x, 0);
    StepsAreAbsorb(0, x, 8);
    BitsOfIsByteBits(x, v);
    Halves8(x);
  }

  /** The loop of `_compute_crc64_entry` over the eight basis constants. */
  method ComputeCrc64Entry(val: bv8) returns (result: bv64)
    ensures result == CRC64_TABLE[val as int]
  {
    result := 0;
    for bit := 0 to 8
      invariant Xor(result, EntryFrom(val, bit)) == EntryFrom(val, 0)
    {
      EntrySplit(result, val, bit);
      if (val >> bit) & 1 == 1 {
        result := Xor(result, BASIS[bit]);
      }
    }
    TableAt(val);
  }

  lemma EntrySplit(r: bv64, v: bv8, n: nat)
    requires n < 8
    ensures Xor(r, EntryFrom(v, n)) == Xor(if BitSet(v, n) then Xor(r, BASIS[n]) else r, EntryFrom(v, n + 1))
  {
    hide Xor, BitSet;
    XorAssoc(r, if BitSet(v, n) then BASIS[n] else 0, EntryFrom(v, n + 1));
    XorComm(r, 0);
    XorComm(EntryFrom(v, n + 1), 0);
  }

  /** One round of the loop of `fc_crc64`. */
  method Round(crc: bv64, b: bv8) returns (r: bv64)
    ensures r == Steps(Xor(crc, b as bv64), 8)
  {
    hide Xor, Steps, Index, High, EntryFrom;
    LookupIsSteps(crc, b);
    var idx := Index(crc, b);
    TableAt(idx);
    r := Xor(CRC64_TABLE[idx as int], High(crc));
  }

  /** The table-driven checksum is the bit-serial checksum, for every byte string and start value. */
  method FcCrc64(data: seq<bv8>, crc0: bv64) returns (crc: bv64)
    ensures crc == BitSerial(data, crc0)
  {
    crc := crc0;
    for i := 0 to |data|
      invariant BitSerial(data[i..], crc) == BitSerial(data, crc0)
    {
      assert data[i..][0] == data[i] && data[i..][1..] == data[i + 1..];
      crc := Round(crc, data[i]);
    }
  }

  // ----- What the checksum detects -----

  lemma {:induction false} BitSerialIsAbsorb(data: seq<bv8>, crc: bv64)
    ensures BitSerial(data, crc) == Absorb(crc, Bits(data))
    decreases |data|
  {
    hide Xor, Steps, Absorb, ByteBits;
    if data != [] {
      StepsAreByteBits(crc, data[0]);
      BitSerialIsAbsorb(data[1..], Absorb(crc, ByteBits(data[0])));
      AbsorbConcat(crc, ByteBits(data[0]), Bits(data[1..]));
    } else {
      AbsorbNothing(crc);
    }
  }

  lemma AbsorbNothing(c: bv64)
    ensures Absorb(c, []) == c
  {
  }

  lemma StepInjective(c: bv64)
    ensures Step(c) == 0 ==> c == 0
  {
  }

  /** Equal continuations keep different registers different. */
  lemma {:induction false} ZerosKeepDifference(c: bv64, n: nat)
    requires c != 0
    ensures Steps(c, n) != 0
    decreases n
  {
    if n > 0 {
      StepInjective(c);
      ZerosKeepDifference(Step(c), n - 1);
    }
  }

  /** The k top bits. */
  function TopMask(k: nat): bv64
    decreases k
  {
    if k == 0 then 0 else MaskNext(TopMask(k - 1))
  }

  function MaskNext(m: bv64): bv64 { (m >> 1) | TOP }

  lemma MaskGrows(m: bv64, m': bv64)
    requires m & m' == m
    ensures MaskNext(m) & MaskNext(m') == MaskNext(m)
  {
  }

  lemma {:induction false} TopMaskGrows(k: nat)
    ensures TopMask(k) & TopMask(k + 1) == TopMask(k)
    decreases k
  {
    if k > 0 {
      TopMaskGrows(k - 1);
      MaskGrows(TopMask(k - 1), TopMask(k));
    }
  }

  lemma TopMaskNext(k: nat)
    ensures TopMask(k + 1) == MaskNext(TopMask(k))
  {
  }

  /** Two, four and sixteen further top bits. */
  function MaskBy2(m: bv64): bv64 { (m >> 2) | 0xC000_0000_0000_0000 }
  function MaskBy4(m: bv64): bv64 { (m >> 4) | 0xF000_0000_0000_0000 }
  function MaskBy16(m: bv64): bv64 { (m >> 16) | 0xFFFF_0000_0000_0000 }

  lemma MaskTwice(m: bv64)
    ensures MaskNext(MaskNext(m)) == MaskBy2(m)
  {
  }

  lemma MaskTwiceTwice(m: bv64)
    ensures MaskBy2(MaskBy2(m)) == MaskBy4(m)
  {
  }

  lemma MaskFourFours(m: bv64)
    ensures MaskBy4(MaskBy4(MaskBy4(MaskBy4(m)))) == MaskBy16(m)
  {
  }

  lemma TopMaskBy4(k: nat)
    ensures TopMask(k + 4) == MaskBy4(TopMask(k))
  {
    hide *;
    var m := TopMask(k);
    TopMaskNext(k);
    TopMaskNext(k + 1);
    TopMaskNext(k + 2);
    TopMaskNext(k + 3);
    MaskTwice(m);
    MaskTwice(MaskBy2(m));
    MaskTwiceTwice(m);
  }

  lemma TopMaskBy16(k: nat)
    ensures TopMask(k + 16) == MaskBy16(TopMask(k))
  {
    hide *;
    TopMaskBy4(k);
    TopMaskBy4(k + 4);
    TopMaskBy4(k + 8);
    TopMaskBy4(k + 12);
    MaskFourFours(TopMask(k));
  }

  lemma LastMasks()
    ensures var m := MaskBy4(MaskBy4(MaskBy4(MaskBy16(MaskBy16(MaskBy16(0))))));
            MaskNext(MaskBy2(m)) == 0xFFFF_FFFF_FFFF_FFFE
  {
  }

  lemma TopMask63()
    ensures TopMask(63) == 0xFFFF_FFFF_FFFF_FFFE
  {
    assert TopMask(0) == 0;
    hide *;
    TopMaskBy16(0);
    TopMaskBy16(16);
    TopMaskBy16(32);
    TopMaskBy4(48);
    TopMaskBy4(52);
    TopMaskBy4(56);
    TopMaskNext(60);
    TopMaskNext(61);
    TopMaskNext(62);
    MaskTwice(TopMask(60));
    LastMasks();
  }

  lemma {:induction false} TopMaskEven(k: nat)
    requires k <= 63
    ensures !Odd(TopMask(k))
    decreases 63 - k
  {
    if k == 63 {
      TopMask63();
    } else {
      TopMaskEven(k + 1);
      TopMaskGrows(k);
      EvenBelow(TopMask(k), TopMask(k + 1));
    }
  }

  lemma EvenBelow(m: bv64, m': bv64)
    requires m & m' == m && !Odd(m')
    ensures !Odd(m)
  {
  }

  /** The k top bits of c are zero. */
  predicate Clear(c: bv64, k: nat) { Masked(c, TopMask(k)) }

  predicate Masked(c: bv64, m: bv64) { c & m == 0 }

  predicate TopZero(c: bv64) { c & TOP == 0 }

  lemma ClearTop(c: bv64, k: nat)
    requires Clear(c, k + 1)
    ensures TopZero(c)
  {
    var m := TopMask(k + 1);
    assert m & TOP == TOP;
  }

  /** A step that leaves the top bit zero was a shift of an even register. */
  lemma StepTop(x: bv64)
    requires TopZero(Step(x))
    ensures !Odd(x) && Step(x) == Half(x)
  {
  }

  lemma MaskBack(x: bv64, e: bool, m: bv64)
    requires !Odd(x) && Masked(Half(x), MaskNext(m)) && !Odd(m)
    ensures Masked(Xor(x, Bit(e)), m)
  {
  }

  lemma ClearBack(x: bv64, e: bool, k: nat)
    requires k <= 63 && !Odd(x) && Clear(Half(x), k + 1)
    ensures Clear(Xor(x, Bit(e)), k)
  {
    hide Xor, Bit, Odd, Half, Masked, MaskNext;
    TopMaskEven(k);
    MaskBack(x, e, TopMask(k));
  }

  /** Running backwards over one fed bit loses one known zero at the top. */
  lemma StepBack(d: bv64, e: bool, k: nat)
    requires k <= 63 && Clear(Step(Xor(d, Bit(e))), k + 1)
    ensures Clear(d, k) && Odd(d) == e && Step(Xor(d, Bit(e))) == Half(d)
  {
    hide Xor, Bit, Odd, Half, Step, TopZero, Clear;
    var x := Xor(d, Bit(e));
    ClearTop(Step(x), k);
    StepTop(x);
    ClearBack(x, e, k);
    XorAssoc(d, Bit(e), Bit(e));
    XorComm(Bit(e), Bit(e));
    XorComm(d, 0);
    XorComm(Half(d), 0);
    BitFacts(e);
    HalfXor(d, Bit(e));
  }

  // ----- Burst detection -----

  /** A difference of at most 64 bits that leaves no trace in the register was no difference. */
  lemma {:induction false} BurstTrace(d: bv64, es: seq<bool>)
    requires |es| <= 64 && Absorb(d, es) == 0
    ensures Clear(d, 64 - |es|)
    ensures d == 0 ==> forall i :: 0 <= i < |es| ==> !es[i]
    decreases |es|
  {
    hide Xor, Bit, Odd, Half, Step, Clear, TopMask;
    if es == [] {
      ZeroIsClear(64);
    } else {
      BurstTrace(Step(Xor(d, Bit(es[0]))), es[1..]);
      StepBack(d, es[0], 64 - |es|);
      ZeroIsEven();
    }
  }

  lemma ZeroIsClear(k: nat)
    ensures Clear(0, k)
  {
  }

  lemma ZeroIsEven()
    ensures !Odd(0) && Half(0) == 0
  {
  }

  lemma SameIfNoTrace(x: seq<bool>, y: seq<bool>)
    requires |x| == |y| <= 64 && Absorb(0, Difference(x, y)) == 0
    ensures x == y
  {
    hide Absorb, Clear;
    BurstTrace(0, Difference(x, y));
    assert forall i :: 0 <= i < |x| ==> x[i] == y[i];
  }

  /** Two bit strings that differ only inside a window of at most 64 bits have different checksums. */
  lemma BurstDetected(p: seq<bool>, x: seq<bool>, y: seq<bool>, s: seq<bool>, c: bv64)
    requires |x| == |y| <= 64 && x != y
    ensures Absorb(c, p + x + s) != Absorb(c, p + y + s)
  {
    hide Xor, Step, Clear, TopMask, Absorb;
    var c1 := Absorb(c, p);
    var cx, cy := Absorb(c1, x), Absorb(c1, y);
    AbsorbConcat(c, p + x, s);
    AbsorbConcat(c, p, x);
    AbsorbConcat(c, p + y, s);
    AbsorbConcat(c, p, y);
    AbsorbLinear(c1, x, c1, y);
    XorComm(c1, c1);
    if Xor(cx, cy) == 0 {
      SameIfNoTrace(x, y);
    }
    AbsorbLinear(cx, s, cy, s);
    assert Difference(s, s) == Zeros(|s|);
    AbsorbZeros(Xor(cx, cy), |s|);
    ZerosKeepDifference(Xor(cx, cy), |s|);
    XorEqual(Absorb(cx, s), Absorb(cy, s));
  }

  lemma {:induction false} BitsConcat(a: seq<bv8>, b: seq<bv8>)
    ensures Bits(a + b) == Bits(a) + Bits(b)
    decreases |a|
  {
    hide ByteBits;
    if a == [] {
      assert a + b == b;
    } else {
      assert (a + b)[1..] == a[1..] + b;
      BitsConcat(a[1..], b);
    }
  }

  lemma ByteBitsInjective(v: bv8, w: bv8)
    requires ByteBits(v) == ByteBits(w)
    ensures v == w
  {
    assert forall n :: 0 <= n < 8 ==> BitSet(v, n) == BitSet(w, n) by {
      forall n | 0 <= n < 8 ensures BitSet(v, n) == BitSet(w, n) {
        assert ByteBits(v)[n] == ByteBits(w)[n];
      }
    }
    SameBits(v, w);
  }

  lemma SameBits(v: bv8, w: bv8)
    requires BitSet(v, 0) == BitSet(w, 0) && BitSet(v, 1) == BitSet(w, 1)
    requires BitSet(v, 2) == BitSet(w, 2) && BitSet(v, 3) == BitSet(w, 3)
    requires BitSet(v, 4) == BitSet(w, 4) && BitSet(v, 5) == BitSet(w, 5)
    requires BitSet(v, 6) == BitSet(w, 6) && BitSet(v, 7) == BitSet(w, 7)
    ensures v == w
  {
  }

  lemma {:induction false} BitsInjective(a: seq<bv8>, b: seq<bv8>)
    requires |a| == |b| && Bits(a) == Bits(b)
    ensures a == b
    decreases |a|
  {
    if a != [] {
      var x, y := Bits(a), Bits(b);
      assert x[..8] == ByteBits(a[0]) && y[..8] == ByteBits(b[0]);
      assert x[8..] == Bits(a[1..]) && y[8..] == Bits(b[1..]);
      ByteBitsInjective(a[0], b[0]);
      BitsInjective(a[1..], b[1..]);
    }
  }

  /** Two equal-length messages that differ only inside a window of 64 consecutive bits,
      however aligned, have different checksums. */
  lemma BurstChangesChecksum(a: seq<bv8>, b: seq<bv8>, crc: bv64, start: nat, end: nat)
    requires |a| == |b| && a != b && start <= end <= 8 * |a| && end - start <= 64
    requires Bits(a)[..start] == Bits(b)[..start] && Bits(a)[end..] == Bits(b)[end..]
    ensures BitSerial(a, crc) != BitSerial(b, crc)
  {
    hide Absorb, Bits, BitSerial;
    var x, y := Bits(a), Bits(b);
    if x[start..end] == y[start..end] {
      assert x == x[..start] + x[start..end] + x[end..];
      assert y == y[..start] + y[start..end] + y[end..];
      BitsInjective(a, b);
    }
    BitSerialIsAbsorb(a, crc);
    BitSerialIsAbsorb(b, crc);
    BurstDetected(x[..start], x[start..end], y[start..end], x[end..], crc);
    assert x == x[..start] + x[start..end] + x[end..];
    assert y == x[..start] + y[start..end] + x[end..];
  }

  /** In particular, a change inside eight consecutive bytes is always seen. */
  lemma WindowChangesChecksum(p: seq<bv8>, v: seq<bv8>, w: seq<bv8>, s: seq<bv8>, crc: bv64)
    requires |v| == |w| <= 8 && v != w
    ensures BitSerial(p + v + s, crc) != BitSerial(p + w + s, crc)
  {
    hide Absorb, Bits, BitSerial;
    BitSerialIsAbsorb(p + v + s, crc);
    BitSerialIsAbsorb(p + w + s, crc);
    BitsConcat(p + v, s);
    BitsConcat(p, v);
    BitsConcat(p + w, s);
    BitsConcat(p, w);
    if Bits(v) == Bits(w) {
      BitsInjective(v, w);
    }
    BurstDetected(Bits(p), Bits(v), Bits(w), Bits(s), crc);
  }
}
