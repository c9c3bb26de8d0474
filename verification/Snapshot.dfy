/** Rewriting paths inside a snapshot and re-sealing it: `host/axiom/snapshot.py`. */
module Snapshot {
  import opened Bytes
  import opened Crc64
  import opened Search

  type Path = p: seq<bv8> | |p| < 0x1_0000_0000_0000_0000 witness []

  // ----- Little-endian words -----

  /** The n low bytes of c, least significant first. */
  function LEBytes(c: bv64, n: nat): (s: seq<bv8>)
    ensures |s| == n
    decreases n
  {
    if n == 0 then [] else [LowOf(c)] + LEBytes(High(c), n - 1)
  }

  function LowOf(c: bv64): bv8 { (c & 0xFF) as bv8 }

  function Highs(c: bv64, n: nat): bv64
    decreases n
  {
    if n == 0 then c else Highs(High(c), n - 1)
  }

  lemma HighEightTimes(c: bv64)
    ensures High(High(High(High(High(High(High(High(c)))))))) == 0
  {
  }

  lemma Highs8(c: bv64)
    ensures Highs(c, 8) == 0
  {
    hide High;
    HighEightTimes(c);
    assert Highs(c, 8) == Highs(High(High(High(High(c)))), 4);
  }

  // ----- The checksum over its own tail -----

  lemma {:induction false} BitSerialConcat(a: seq<bv8>, b: seq<bv8>, crc: bv64)
    ensures BitSerial(a + b, crc) == BitSerial(b, BitSerial(a, crc))
    decreases |a|
  {
    hide Xor, Steps;
    if a == [] {
      assert a + b == b;
    } else {
      assert (a + b)[1..] == a[1..] + b;
      BitSerialConcat(a[1..], b, Steps(Xor(crc, a[0] as bv64), 8));
    }
  }

  lemma IndexOfOwnByte(c: bv64)
    ensures Index(c, LowOf(c)) == 0
  {
  }

  lemma EntryOfZero()
    ensures EntryFrom(0, 0) == 0
  {
    assert EntryFrom(0, 4) == 0;
  }

  /** A register fed its own low byte shifts it out. */
  lemma OwnByteShiftsOut(c: bv64)
    ensures Steps(Xor(c, LowOf(c) as bv64), 8) == High(c)
  {
    hide Xor, Steps, Index, LowOf, High, EntryFrom;
    LookupIsSteps(c, LowOf(c));
    IndexOfOwnByte(c);
    EntryOfZero();
    XorComm(High(c), 0);
  }

  lemma {:induction false} OwnBytesShiftOut(c: bv64, n: nat)
    ensures BitSerial(LEBytes(c, n), c) == Highs(c, n)
    decreases n
  {
    hide Xor, Steps, LowOf, High;
    if n > 0 {
      OwnByteShiftsOut(c);
      OwnBytesShiftOut(High(c), n - 1);
      assert LEBytes(c, n)[1..] == LEBytes(High(c), n - 1);
    }
  }

  /** The checksum over a payload and eight more bytes is zero exactly when those bytes are the
      little-endian checksum of the payload. */
  lemma TailValidates(payload: seq<bv8>, tail: seq<bv8>)
    requires |tail| == 8
    ensures BitSerial(payload + tail, 0) == 0 <==> tail == LEBytes(BitSerial(payload, 0), 8)
  {
    hide BitSerial, LEBytes, Highs;
    var c := BitSerial(payload, 0);
    var seal := LEBytes(c, 8);
    BitSerialConcat(payload, seal, 0);
    OwnBytesShiftOut(c, 8);
    Highs8(c);
    if tail != seal {
      WindowChangesChecksum(payload, tail, seal, [], 0);
      assert payload + tail + [] == payload + tail && payload + seal + [] == payload + seal;
    }
  }

  // ----- Rewriting one path -----

  /** The k low-order bytes of a number, least significant first, as `struct.pack` writes them. */
  function Packed(n: nat, k: nat): (s: seq<bv8>)
    ensures |s| == k
  {
    if k == 0 then [] else [(n % 256) as bv8] + Packed(n / 256, k - 1)
  }

  /** The number whose bytes, least significant first, are s. */
  function Unpacked(s: seq<bv8>): nat
    decreases s
  {
    if s == [] then 0 else s[0] as int + 256 * Unpacked(s[1..])
  }

  lemma {:induction false} UnpackedOfPacked(n: nat, k: nat)
    requires n < Pow256(k)
    ensures Unpacked(Packed(n, k)) == n
    decreases k
  {
    if k > 0 {
      UnpackedOfPacked(n / 256, k - 1);
      ByteOfNumber(n % 256);
      assert Packed(n, k)[1..] == Packed(n / 256, k - 1);
    }
  }

  /** A path as bincode writes it: its length in eight little-endian bytes, then its bytes. */
  function Needle(path: Path): (s: seq<bv8>)
    ensures |s| == 8 + |path|
  {
    Packed(|path|, 8) + path
  }

  /** The eight bytes in front of a needle's path read back as the path's length. */
  lemma NeedleHoldsLength(path: Path)
    ensures Unpacked(Needle(path)[..8]) == |path| && Needle(path)[8..] == path
  {
    hide Packed, Unpacked;
    PowersOf256();
    UnpackedOfPacked(|path|, 8);
    assert Needle(path)[..8] == Packed(|path|, 8);
  }

  /** `rewrite_snapshot_path`: None stands for its ValueError. */
  function Rewrite(s: seq<bv8>, oldPath: Path, newPath: Path): Option<seq<bv8>> {
    match Find(s, Needle(oldPath), 0)
    case None => None
    case Some(at) => Some(s[..at] + Needle(newPath) + s[at + |Needle(oldPath)|..])
  }

  function Splice<T>(s: seq<T>, at: nat, cut: nat, ins: seq<T>): (t: seq<T>)
    requires at + cut <= |s|
    ensures |t| == |s| - cut + |ins|
    ensures t[..at] == s[..at] && t[at..at + |ins|] == ins && t[at + |ins|..] == s[at + cut..]
  {
    s[..at] + ins + s[at + cut..]
  }

  /** A rewrite succeeds exactly when the old path occurs with its length prefix; then it
      replaces the first such occurrence, and nothing else. */
  lemma RewriteIsSplice(s: seq<bv8>, oldPath: Path, newPath: Path)
    ensures Rewrite(s, oldPath, newPath).Some? <==> exists at: nat :: OccursAt(s, Needle(oldPath), at)
    ensures forall at: nat :: FirstAt(s, Needle(oldPath), 0, at) ==>
              Rewrite(s, oldPath, newPath) == Some(Splice(s, at, 8 + |oldPath|, Needle(newPath)))
  {
    hide Needle;
    var r := Find(s, Needle(oldPath), 0);
    forall at: nat | FirstAt(s, Needle(oldPath), 0, at)
      ensures r == Some(at)
    {
      FindIsFirst(s, Needle(oldPath), 0, at);
    }
    if r.Some? {
      assert OccursAt(s, Needle(oldPath), r.value);
    }
  }

  /** Rewriting back restores the snapshot if and only if no new path with its length prefix
      occurs in the rewritten snapshot before the place of the rewrite. */
  lemma RewriteBack(s: seq<bv8>, oldPath: Path, newPath: Path, at: nat)
    requires FirstAt(s, Needle(oldPath), 0, at)
    ensures var t := Splice(s, at, 8 + |oldPath|, Needle(newPath));
            && Rewrite(s, oldPath, newPath) == Some(t)
            && (Rewrite(t, newPath, oldPath) == Some(s) <==>
                forall i :: 0 <= i < at ==> !OccursAt(t, Needle(newPath), i))
  {
    hide Needle, Rewrite;
    var o, n := Needle(oldPath), Needle(newPath);
    var t := Splice(s, at, |o|, n);
    RewriteIsSplice(s, oldPath, newPath);
    RewriteIsSplice(t, newPath, oldPath);
    assert OccursAt(t, n, at);
    var j := Find(t, n, 0).value;
    var u := Splice(t, j, |n|, o);
    if j == at {
      assert s == s[..at] + o + s[at + |o|..];
      assert u == s;
    } else {
      assert u[j..j + |o|] == o && !OccursAt(s, o, j);
    }
  }

  lemma {:induction false} PackedZero(k: nat)
    ensures |Packed(0, k)| == k && forall i :: 0 <= i < k ==> Packed(0, k)[i] == 0
  {
    if k > 0 {
      PackedZero(k - 1);
    }
  }

  lemma NeedleOfOne(c: bv8)
    ensures Needle([c]) == [1, 0, 0, 0, 0, 0, 0, 0, c]
  {
    PackedZero(7);
    assert Packed(1, 8) == [1] + Packed(0, 7);
    assert Needle([c]) == Packed(1, 8) + [c];
  }

  /** The path "b" in front of the path "a": rewriting "a" to "b" and back changes the other one. */
  lemma RewriteBackHitsAnother()
    ensures var a, b := [0x61 as bv8], [0x62 as bv8];
            var s := Needle(b) + Needle(a);
            && Rewrite(s, a, b) == Some(Needle(b) + Needle(b))
            && Rewrite(Needle(b) + Needle(b), b, a) == Some(Needle(a) + Needle(b)) != Some(s)
  {
    var a, b := [0x61 as bv8], [0x62 as bv8];
    var o, n := Needle(a), Needle(b);
    NeedleOfOne(0x61);
    NeedleOfOne(0x62);
    hide Needle, Rewrite;
    var s, t := n + o, n + n;
    assert s[..9] == n && s[9..] == o && t[..9] == n && t[9..] == n;
    forall i | 0 <= i < 9 ensures !OccursAt(s, o, i) {
      assert o[0] == 1 && o[8] == 0x61 && s[0] == 1 && s[8] == 0x62;
    }
    assert FirstAt(s, o, 0, 9) && FirstAt(t, n, 0, 0);
    RewriteIsSplice(s, a, b);
    assert Splice(s, 9, 9, n) == t;
    RewriteIsSplice(t, b, a);
    assert Splice(t, 0, 9, o) == o + n;
    assert (o + n)[8] == 0x61 && s[8] == 0x62;
  }

  // ----- Rewriting several paths and re-sealing -----

  /** The loop of `update_snapshot_state`. */
  function RewriteAll(s: seq<bv8>, reps: seq<(Path, Path)>): Option<seq<bv8>>
    decreases reps
  {
    if reps == [] then Some(s)
    else match Rewrite(s, reps[0].0, reps[0].1)
      case None => None
      case Some(t) => RewriteAll(t, reps[1..])
  }

  /** How much the replacements lengthen a snapshot. */
  function Growth(reps: seq<(Path, Path)>): int
    decreases reps
  {
    if reps == [] then 0 else |reps[0].1| - |reps[0].0| + Growth(reps[1..])
  }

  lemma {:induction false} RewriteAllGrows(s: seq<bv8>, reps: seq<(Path, Path)>)
    ensures RewriteAll(s, reps).Some? ==> |RewriteAll(s, reps).value| == |s| + Growth(reps)
    decreases |reps|
  {
    hide Needle;
    if reps != [] && Rewrite(s, reps[0].0, reps[0].1).Some? {
      RewriteAllGrows(Rewrite(s, reps[0].0, reps[0].1).value, reps[1..]);
    }
  }

  /** A snapshot validates when the checksum over all of it, seal included, is zero. */
  predicate Validates(snap: seq<bv8>) { BitSerial(snap, 0) == 0 }

  datatype Update = Updated(snap: seq<bv8>) | TooSmall | NotLocated

  /** Rewrites the payload path by path and appends the checksum of the result. */
  method UpdateSnapshotState(snap: seq<bv8>, reps: seq<(Path, Path)>) returns (r: Update)
    ensures r.TooSmall? <==> |snap| < 8
    ensures r.NotLocated? <==> |snap| >= 8 && RewriteAll(snap[..|snap| - 8], reps).None?
    ensures r.Updated? ==>
              && Validates(r.snap)
              && |r.snap| == |snap| + Growth(reps) >= 8
              && RewriteAll(snap[..|snap| - 8], reps) == Some(r.snap[..|r.snap| - 8])
  {
    if |snap| < 8 {
      return TooSmall;
    }
    var payload := snap[..|snap| - 8];
    ghost var start := payload;
    for i := 0 to |reps|
      invariant RewriteAll(start, reps) == RewriteAll(payload, reps[i..])
    {
      assert reps[i..][0] == reps[i] && reps[i..][1..] == reps[i + 1..];
      match Rewrite(payload, reps[i].0, reps[i].1) {
        case None => return NotLocated;
        case Some(t) => payload := t;
      }
    }
    RewriteAllGrows(start, reps);
    var newCrc := FcCrc64(payload, 0);
    var seal := LEBytes(newCrc, 8);
    TailValidates(payload, seal);
    assert (payload + seal)[..|payload|] == payload;
    return Updated(payload + seal);
  }

  /** The seal is determined by the payload, so there is one valid snapshot for each payload. */
  lemma SealIsUnique(a: seq<bv8>, b: seq<bv8>)
    requires |a| == |b| >= 8 && a[..|a| - 8] == b[..|b| - 8] && Validates(a) && Validates(b)
    ensures a == b
  {
    hide BitSerial, LEBytes;
    var n := |a| - 8;
    TailValidates(a[..n], a[n..]);
    TailValidates(b[..n], b[n..]);
    assert a == a[..n] + a[n..] && b == b[..n] + b[n..];
  }

  /** Damage to a valid snapshot that is confined to eight consecutive bytes, wherever they lie,
      makes it invalid. */
  lemma DamageIsSeen(p: seq<bv8>, v: seq<bv8>, w: seq<bv8>, s: seq<bv8>)
    requires |v| == |w| <= 8 && v != w && Validates(p + v + s)
    ensures !Validates(p + w + s)
  {
    WindowChangesChecksum(p, v, w, s, 0);
  }
}
