/** First occurrences in sequences: what `string_view::find` and `bytes.replace` look for. */
module Search {

  datatype Option<+T> = None | Some(value: T)

  predicate OccursAt<T(==)>(s: seq<T>, needle: seq<T>, at: nat) {
    at + |needle| <= |s| && s[at..at + |needle|] == needle
  }

  /** The first occurrence at or after `from`. */
  predicate FirstAt<T(==)>(s: seq<T>, needle: seq<T>, from: nat, at: nat) {
    from <= at && OccursAt(s, needle, at) && forall i :: from <= i < at ==> !OccursAt(s, needle, i)
  }

  function Find<T(==)>(s: seq<T>, needle: seq<T>, from: nat): (r: Option<nat>)
    ensures r.Some? ==> FirstAt(s, needle, from, r.value)
    ensures r.None? ==> forall i: nat :: from <= i ==> !OccursAt(s, needle, i)
    decreases |s| - from
  {
    if from + |needle| > |s| then None
    else if OccursAt(s, needle, from) then Some(from)
    else Find(s, needle, from + 1)
  }

  lemma FirstIsUnique<T>(s: seq<T>, needle: seq<T>, from: nat, i: nat, j: nat)
    requires FirstAt(s, needle, from, i) && FirstAt(s, needle, from, j)
    ensures i == j
  {
  }

  lemma FindIsFirst<T>(s: seq<T>, needle: seq<T>, from: nat, at: nat)
    requires FirstAt(s, needle, from, at)
    ensures Find(s, needle, from) == Some(at)
  {
    FirstIsUnique(s, needle, from, Find(s, needle, from).value, at);
  }

  /** The index of the first occurrence of a character, or the length. */
  function IndexOf(s: string, c: char): (n: nat)
    ensures n <= |s| && (n < |s| ==> s[n] == c) && c !in s[..n]
    decreases s
  {
    if s == "" || s[0] == c then 0
    else
      assert s[..1 + IndexOf(s[1..], c)] == [s[0]] + s[1..][..IndexOf(s[1..], c)];
      1 + IndexOf(s[1..], c)
  }

  lemma {:induction false} IndexOfFirst(head: string, c: char, tail: string)
    requires c !in head
    ensures IndexOf(head + [c] + tail, c) == |head|
    decreases |head|
  {
    if head != "" {
      assert (head + [c] + tail)[1..] == head[1..] + [c] + tail;
      IndexOfFirst(head[1..], c, tail);
    }
  }
}
