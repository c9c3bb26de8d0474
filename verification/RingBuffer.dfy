/** `include/axiom/ring_buffer.hpp`: a circular buffer that keeps the last bytes written. */
module RingBuffers {
  import opened Bytes

  /** The last n elements, or all of them. */
  function LastN<T>(s: seq<T>, n: nat): (t: seq<T>)
    ensures |t| == if |s| <= n then |s| else n
  {
    if |s| <= n then s else s[|s| - n..]
  }

  /** What is kept of a concatenation depends only on what is kept of its first part. */
  lemma LastNConcat<T>(a: seq<T>, b: seq<T>, n: nat)
    ensures LastN(a + b, n) == LastN(LastN(a, n) + b, n)
  {
  }

  lemma LastNSnoc<T>(s: seq<T>, x: T, n: nat)
    requires n > 0
    ensures LastN(s + [x], n) == if |s| < n then LastN(s, n) + [x] else LastN(s, n)[1..] + [x]
  {
  }

  /** The size bytes from head on, going round the end of the storage. */
  ghost function Stored(st: seq<byte>, head: nat, size: nat): (s: seq<byte>)
    requires head < |st| && size <= |st|
    ensures |s| == size
  {
    if head + size <= |st| then st[head..head + size] else st[head..] + st[..head + size - |st|]
  }

  lemma StoredAt(st: seq<byte>, head: nat, size: nat, i: nat)
    requires head < |st| && i < size <= |st|
    ensures Stored(st, head, size)[i] == st[Wrap(head + i, |st|)]
  {
  }

  /** Storing at the tail appends, while there is room. */
  lemma StoreAppends(st: seq<byte>, head: nat, size: nat, b: byte)
    requires head < |st| && size < |st|
    ensures Stored(st[Wrap(head + size, |st|) := b], head, size + 1) == Stored(st, head, size) + [b]
  {
  }

  /** Storing into a full buffer also drops the oldest byte. */
  lemma StoreReplaces(st: seq<byte>, head: nat, b: byte)
    requires head < |st|
    ensures Stored(st[head := b], Wrap(head + 1, |st|), |st|) == Stored(st, head, |st|)[1..] + [b]
  {
    var x, y, next := Stored(st[head := b], Wrap(head + 1, |st|), |st|), Stored(st, head, |st|), Wrap(head + 1, |st|);
    forall i | 0 <= i < |st| ensures x[i] == (y[1..] + [b])[i] {
      StoredAt(st[head := b], next, |st|, i);
      if i + 1 < |st| {
        StoredAt(st, head, |st|, i + 1);
      }
    }
  }

  /** The first n bytes of a over the beginning of d. */
  ghost function Copied(a: seq<byte>, d: seq<byte>, n: nat): (r: seq<byte>)
    requires n <= |a| && n <= |d|
    ensures |r| == |d|
  {
    a[..n] + d[n..]
  }

  lemma CopiedParts(a: seq<byte>, d: seq<byte>, n: nat)
    requires n <= |a| && n <= |d|
    ensures Copied(a, d, n)[..n] == a[..n] && Copied(a, d, n)[n..] == d[n..]
  {
  }

  /** A storage that keeps the last bytes of a history. */
  ghost predicate Holds(st: seq<byte>, head: nat, tail: nat, size: nat, written: nat, history: seq<byte>) {
    var cap := |st|;
    && cap > 0 && head < cap
    && written == |history|
    && size == |LastN(history, cap)|
    && tail == Wrap(head + size, cap)
    && (size < cap ==> head == 0)
    && Stored(st, head, size) == LastN(history, cap)
  }

  /** One byte stored at the tail, while there is room. */
  lemma PushedInto(st: seq<byte>, head: nat, tail: nat, size: nat, written: nat, history: seq<byte>, b: byte)
    requires Holds(st, head, tail, size, written, history) && size < |st|
    ensures tail < |st|
    ensures Holds(st[tail := b], head, Round(tail + 1, |st|), size + 1, written + 1, history + [b])
  {
    LastNSnoc(history, b, |st|);
    WrapIsMod(tail + 1, |st|);
    StoreAppends(st, head, size, b);
    hide Stored, LastN, Round;
  }

  /** One byte stored over the oldest one. */
  lemma PushedOver(st: seq<byte>, head: nat, tail: nat, written: nat, history: seq<byte>, b: byte)
    requires Holds(st, head, tail, |st|, written, history)
    ensures tail == head
    ensures Holds(st[tail := b], Round(head + 1, |st|), Round(tail + 1, |st|), |st|, written + 1, history + [b])
  {
    LastNSnoc(history, b, |st|);
    WrapIsMod(head + 1, |st|);
    StoreReplaces(st, head, b);
    hide Stored, LastN, Round;
  }

  lemma HoldsWithin(st: seq<byte>, head: nat, tail: nat, size: nat, written: nat, history: seq<byte>)
    requires Holds(st, head, tail, size, written, history)
    ensures head < |st| && size <= |st|
  {
  }

  class RingBuffer {
    const storage: array<byte>
    var head: nat
    var tail: nat
    var size: nat
    var totalWritten: nat

    /** Everything written since the last clear. */
    ghost var history: seq<byte>

    ghost predicate Valid()
      reads this, storage
    {
      Holds(storage[..], head, tail, size, totalWritten, history)
    }

    /** The stored bytes in chronological order. */
    ghost function Contents(): seq<byte>
      reads this, storage
    {
      LastN(history, storage.Length)
    }

    constructor (capacity: nat)
      requires capacity > 0
      ensures Valid() && fresh(storage) && storage.Length == capacity && history == []
    {
      storage := new byte[capacity];
      head, tail, size, totalWritten := 0, 0, 0, 0;
      history := [];
    }

    method Clear()
      requires storage.Length > 0
      modifies this
      ensures Valid() && history == []
    {
      head, tail, size, totalWritten := 0, 0, 0, 0;
      history := [];
    }

    method PushByte(b: byte)
      requires Valid()
      modifies this, storage
      ensures Valid() && history == old(history) + [b]
    {
      hide Holds, Round, Stored, LastN, Contents;
      var cap := storage.Length;
      HoldsWithin(storage[..], head, tail, size, totalWritten, history);
      if size < cap {
        PushedInto(storage[..], head, tail, size, totalWritten, history, b);
      } else {
        PushedOver(storage[..], head, tail, totalWritten, history, b);
      }
      ghost var st := storage[..];
      storage[tail] := b;
      assert storage[..] == st[tail := b];
      tail := Round(tail + 1, cap);
      if size < cap {
        size := size + 1;
      } else {
        head := Round(head + 1, cap);
      }
      totalWritten := totalWritten + 1;
      history := history + [b];
    }

    method Write(data: seq<byte>) returns (n: nat)
      requires Valid()
      modifies this, storage
      ensures Valid() && history == old(history) + data && n == |data|
      ensures Contents() == LastN(old(Contents()) + data, storage.Length)
    {
      LastNConcat(history, data, storage.Length);
      for i := 0 to |data|
        invariant Valid() && history == old(history) + data[..i]
      {
        PushByte(data[i]);
        assert data[..i] + [data[i]] == data[..i + 1];
      }
      assert data[..|data|] == data;
      return |data|;
    }

    /** Copies the oldest bytes first; what does not fit the destination is the newest part. */
    method Linearize(dest: array<byte>) returns (n: nat)
      requires Valid() && dest != storage
      modifies dest
      ensures n == if dest.Length < |Contents()| then dest.Length else |Contents()|
      ensures dest[..n] == Contents()[..n] && dest[n..] == old(dest[n..])
    {
      n := if dest.Length < size then dest.Length else size;
      forall i: nat | i < n ensures storage[Round(head + i, storage.Length)] == Contents()[i] {
        ElementAt(i);
      }
      CopiedParts(Contents(), dest[..], n);
      hide Valid, Contents, Copied;
      CopyOut(dest, n, Contents());
    }

    lemma ElementAt(i: nat)
      requires Valid() && i < size
      ensures storage[Round(head + i, storage.Length)] == Contents()[i]
    {
      WrapIsMod(head + i, storage.Length);
      StoredAt(storage[..], head, size, i);
      hide Stored, LastN, Wrap;
    }

    /** The loop: going round the end of the storage. */
    method CopyOut(dest: array<byte>, n: nat, ghost contents: seq<byte>)
      requires storage.Length > 0 && dest != storage && n <= dest.Length && n <= |contents|
      requires forall i: nat :: i < n ==> storage[Round(head + i, storage.Length)] == contents[i]
      modifies dest
      ensures dest[..] == Copied(contents, old(dest[..]), n)
    {
      for i := 0 to n
        invariant forall k :: 0 <= k < i ==> dest[k] == contents[k]
        invariant forall k :: i <= k < dest.Length ==> dest[k] == old(dest[k])
      {
        dest[i] := storage[Round(head + i, storage.Length)];
      }
    }

    predicate IsTruncated()
      reads this, storage
    {
      totalWritten > storage.Length
    }

    function DroppedBytes(): nat
      reads this, storage
    {
      if IsTruncated() then totalWritten - storage.Length else 0
    }

    /** Nothing is lost uncounted: what is stored and what was dropped add up to what was written,
        and the stored bytes are the ones written last. */
    lemma Accounting()
      requires Valid()
      ensures size + DroppedBytes() == totalWritten == |history|
      ensures history == history[..DroppedBytes()] + Contents()
      ensures IsTruncated() <==> |history| > storage.Length
      ensures IsTruncated() <==> DroppedBytes() > 0
    {
    }
  }

  /** An index that has gone at most once past the end. */
  function Wrap(i: nat, cap: nat): (r: nat)
    requires i < 2 * cap
    ensures r < cap
  {
    if i < cap then i else i - cap
  }

  /** An index modulo the capacity. */
  function Round(i: nat, cap: nat): (r: nat)
    requires cap > 0
    ensures r < cap
  {
    i % cap
  }

  lemma WrapIsMod(i: nat, cap: nat)
    requires i < 2 * cap
    ensures Round(i, cap) == Wrap(i, cap)
  {
    if i < cap {
    } else {
      assert i == (i - cap) + 1 * cap;
    }
  }
}
