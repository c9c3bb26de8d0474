/** Bytes and little-endian integers, as laid out by packed structs and by `struct.pack("<...")`. */
module Bytes {

  type byte = x: int | 0 <= x < 256

  /** 256 to the power k: the number of values that k bytes can hold. */
  function Pow256(k: nat): (p: nat)
    ensures p > 0
  {
    if k == 0 then 1 else 256 * Pow256(k - 1)
  }

  /** The k low-order bytes of n, least significant first. */
  function LE(n: nat, k: nat): (s: seq<byte>)
    ensures |s| == k
  {
    if k == 0 then [] else [n % 256] + LE(n / 256, k - 1)
  }

  /** The integer whose little-endian bytes are s. */
  function FromLE(s: seq<byte>): nat {
    if s == [] then 0 else s[0] + 256 * FromLE(s[1..])
  }

  /** Reading back what was written gives the integer, truncated to k bytes. */
  lemma {:induction false} FromLEOfLE(n: nat, k: nat)
    ensures n < Pow256(k) ==> FromLE(LE(n, k)) == n
  {
    if k > 0 {
      FromLEOfLE(n / 256, k - 1);
      assert LE(n, k)[1..] == LE(n / 256, k - 1);
    }
  }

  lemma PowersOf256()
    ensures Pow256(1) == 0x100 && Pow256(2) == 0x1_0000
    ensures Pow256(4) == 0x1_0000_0000 && Pow256(8) == 0x1_0000_0000_0000_0000
  {
    assert Pow256(4) == 256 * 256 * Pow256(2);
    assert Pow256(6) == 256 * 256 * Pow256(4);
  }

  predicate U16(n: nat) { n < 0x1_0000 }
  predicate U32(n: nat) { n < 0x1_0000_0000 }

  lemma RoundTrip16(n: nat)
    requires U16(n)
    ensures FromLE(LE(n, 2)) == n
  {
    PowersOf256();
    FromLEOfLE(n, 2);
  }

  lemma RoundTrip32(n: nat)
    requires U32(n)
    ensures FromLE(LE(n, 4)) == n
  {
    PowersOf256();
    FromLEOfLE(n, 4);
  }

  /** The parts of a joined text are where they were put. */
  lemma Joined4<T>(a: seq<T>, b: seq<T>, c: seq<T>, d: seq<T>)
    ensures var s := a + b + c + d;
            && s[0..|a|] == a && s[|a|..|a| + |b|] == b
            && s[|a| + |b|..|a| + |b| + |c|] == c && s[|a| + |b| + |c|..] == d
  {
  }

  /** A byte as eight bits and back. */
  lemma ByteOfNumber(b: byte)
    ensures b as bv8 as int == b
  {
    assert b == b % 256;
  }
}
