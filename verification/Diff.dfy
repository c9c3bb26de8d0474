/** `compute_diff` of `include/axiom/diff.hpp`: which files a command added, changed and removed,
    printed into a bounded buffer. */
module Diff {
  import opened Search
  import opened DecimalText

  datatype FileRecord = FileRecord(path: string, size: nat, mtimeSec: int, mtimeNsec: int)

  /** Size or modification time differ. */
  predicate Differs(a: FileRecord, b: FileRecord) {
    a.size != b.size || a.mtimeSec != b.mtimeSec || a.mtimeNsec != b.mtimeNsec
  }

  datatype Line =
    | Added(path: string, size: nat)
    | Modified(path: string, oldSize: nat, newSize: nat)
    | Removed(path: string)

  function Action(l: Line): string {
    match l
    case Added(_, _) => "+"
    case Modified(_, _, _) => "M"
    case Removed(_) => "-"
  }

  /** The sizes that the formats print behind the path. */
  function Sizes(l: Line): string {
    match l
    case Added(_, size) => " (" + Decimal(size) + " B)"
    case Modified(_, oldSize, newSize) => " (" + Decimal(oldSize) + " -> " + Decimal(newSize) + " B)"
    case Removed(_) => ""
  }

  function Print(l: Line): string { Action(l) + " " + l.path + Sizes(l) + "\n" }

  /** The first record with a path. */
  function Lookup(recs: seq<FileRecord>, path: string): (r: Option<FileRecord>)
    ensures r.Some? ==> r.value in recs && r.value.path == path
    ensures r.None? ==> forall i :: 0 <= i < |recs| ==> recs[i].path != path
    decreases recs
  {
    if recs == [] then None
    else if recs[0].path == path then Some(recs[0])
    else Lookup(recs[1..], path)
  }

  function LineOf(pre: seq<FileRecord>, curr: FileRecord): seq<Line> {
    match Lookup(pre, curr.path)
    case None => [Added(curr.path, curr.size)]
    case Some(old_) => if Differs(old_, curr) then [Modified(curr.path, old_.size, curr.size)] else []
  }

  function Changes(pre: seq<FileRecord>, post: seq<FileRecord>): seq<Line>
    decreases post
  {
    if post == [] then [] else LineOf(pre, post[0]) + Changes(pre, post[1..])
  }

  function Removals(pre: seq<FileRecord>, post: seq<FileRecord>): seq<Line>
    decreases pre
  {
    if pre == [] then []
    else (if Lookup(post, pre[0].path).None? then [Removed(pre[0].path)] else []) + Removals(pre[1..], post)
  }

  /** All lines: first what is new or changed, then what is gone. */
  function DiffLines(pre: seq<FileRecord>, post: seq<FileRecord>): seq<Line> {
    Changes(pre, post) + Removals(pre, post)
  }

  /** The lines that the buffer takes: a line is skipped when it and its terminator do not fit
      behind the `used` characters, and later, shorter lines may still be taken. */
  function Kept(lines: seq<Line>, used: nat, cap: nat): seq<Line>
    decreases lines
  {
    if lines == [] then []
    else if used + |Print(lines[0])| < cap then [lines[0]] + Kept(lines[1..], used + |Print(lines[0])|, cap)
    else Kept(lines[1..], used, cap)
  }

  function PrintAll(lines: seq<Line>): string
    decreases lines
  {
    if lines == [] then "" else Print(lines[0]) + PrintAll(lines[1..])
  }

  // ----- As it runs -----

  /** What fits of a text. */
  function Fitting(text: string, room: nat): string { if |text| <= room then text else text[..room] }

  /** `snprintf` into the rest of a buffer: as much of the text as leaves room for a terminator is stored,
      then the terminator; the length of the whole text is returned. */
  method Snprintf(dest: array<char>, at: nat, text: string) returns (n: nat)
    requires at < dest.Length
    modifies dest
    ensures n == |text|
    ensures var stored := Fitting(text, dest.Length - at - 1);
            dest[..] == old(dest[..])[..at] + stored + ['\0'] + old(dest[..])[at + |stored| + 1..]
  {
    var stored := |Fitting(text, dest.Length - at - 1)|;
    forall i | 0 <= i < stored {
      dest[at + i] := text[i];
    }
    dest[at + stored] := '\0';
    return |text|;
  }

  lemma FrontOfJoined(a: string, b: string, c: string)
    ensures (a + b + c)[..|a| + |b|] == a + b
  {
  }

  /** Prints a line and keeps it if it fitted. */
  method PutLine(dest: array<char>, used: nat, l: Line) returns (after: nat)
    requires used < dest.Length
    modifies dest
    ensures after == if used + |Print(l)| < dest.Length then used + |Print(l)| else used
    ensures dest[..after] == old(dest[..used]) + (if used + |Print(l)| < dest.Length then Print(l) else "")
  {
    after := used;
    var n := Snprintf(dest, used, Print(l));
    if n > 0 && n < dest.Length - used {
      after := used + n;
      FrontOfJoined(old(dest[..])[..used], Print(l), ['\0'] + old(dest[..])[after + 1..]);
    }
  }

  /** The search loop over a snapshot. */
  method FindRecord(recs: seq<FileRecord>, path: string) returns (r: Option<FileRecord>)
    ensures r == Lookup(recs, path)
  {
    for i := 0 to |recs|
      invariant Lookup(recs[i..], path) == Lookup(recs, path)
    {
      assert recs[i..][0] == recs[i] && recs[i..][1..] == recs[i + 1..];
      if recs[i].path == path {
        return Some(recs[i]);
      }
    }
    return None;
  }

  /** Where the buffer is going when `lines` are still to be printed behind `text`. */
  function Final(text: string, lines: seq<Line>, cap: nat): string {
    text + PrintAll(Kept(lines, |text|, cap))
  }

  /** One record of the second snapshot. */
  method PutChange(dest: array<char>, n0: nat, pre: seq<FileRecord>, curr: FileRecord, ghost rest: seq<Line>)
    returns (n: nat)
    requires n0 < dest.Length
    modifies dest
    ensures n < dest.Length
    ensures Final(dest[..n], rest, dest.Length) == Final(old(dest[..n0]), LineOf(pre, curr) + rest, dest.Length)
  {
    hide Print, Kept;
    n := n0;
    var old_ := FindRecord(pre, curr.path);
    if old_.None? {
      TakeOne(dest[..n], Added(curr.path, curr.size), rest, dest.Length);
      n := PutLine(dest, n, Added(curr.path, curr.size));
    } else if Differs(old_.value, curr) {
      TakeOne(dest[..n], Modified(curr.path, old_.value.size, curr.size), rest, dest.Length);
      n := PutLine(dest, n, Modified(curr.path, old_.value.size, curr.size));
    } else {
      assert LineOf(pre, curr) + rest == rest;
    }
  }

  /** One record of the first snapshot. */
  method PutRemoval(dest: array<char>, n0: nat, prev: FileRecord, post: seq<FileRecord>, ghost rest: seq<Line>)
    returns (n: nat)
    requires n0 < dest.Length
    modifies dest
    ensures n < dest.Length
    ensures Final(dest[..n], rest, dest.Length)
         == Final(old(dest[..n0]), (if Lookup(post, prev.path).None? then [Removed(prev.path)] else []) + rest,
                  dest.Length)
  {
    hide Print, Kept;
    n := n0;
    var found := FindRecord(post, prev.path);
    if found.None? {
      TakeOne(dest[..n], Removed(prev.path), rest, dest.Length);
      n := PutLine(dest, n, Removed(prev.path));
    } else {
      assert [] + rest == rest;
    }
  }

  /** The printed text is made of whole lines of the diff and of nothing else. */
  method ComputeDiff(pre: seq<FileRecord>, post: seq<FileRecord>, dest: array<char>) returns (n: nat)
    modifies dest
    ensures n <= dest.Length && dest[..n] == PrintAll(Kept(DiffLines(pre, post), 0, dest.Length))
  {
    if dest.Length == 0 {
      KeptNothing(DiffLines(pre, post), 0);
      return 0;
    }
    n := 0;
    ghost var removals, goal := Removals(pre, post), Final("", DiffLines(pre, post), dest.Length);
    assert dest[..0] == "";
    for i := 0 to |post|
      invariant n < dest.Length && Final(dest[..n], Changes(pre, post[i..]) + removals, dest.Length) == goal
    {
      ChangesStep(pre, post, i, removals);
      n := PutChange(dest, n, pre, post[i], Changes(pre, post[i + 1..]) + removals);
    }
    assert [] + removals == removals;
    for i := 0 to |pre|
      invariant n < dest.Length && Final(dest[..n], Removals(pre[i..], post), dest.Length) == goal
    {
      assert pre[i..][0] == pre[i] && pre[i..][1..] == pre[i + 1..];
      n := PutRemoval(dest, n, pre[i], post, Removals(pre[i + 1..], post));
    }
    assert dest[..n] + "" == dest[..n];
  }

  lemma ChangesStep(pre: seq<FileRecord>, post: seq<FileRecord>, i: nat, removals: seq<Line>)
    requires i < |post|
    ensures Changes(pre, post[i..]) + removals == LineOf(pre, post[i]) + (Changes(pre, post[i + 1..]) + removals)
  {
    assert post[i..][0] == post[i] && post[i..][1..] == post[i + 1..];
  }

  lemma {:induction false} KeptNothing(lines: seq<Line>, used: nat)
    ensures Kept(lines, used, 0) == []
    decreases |lines|
  {
    if lines != [] {
      KeptNothing(lines[1..], used);
    }
  }

  lemma TakeOne(text: string, l: Line, rest: seq<Line>, cap: nat)
    ensures Final(text, [l] + rest, cap)
         == Final(if |text| + |Print(l)| < cap then text + Print(l) else text, rest, cap)
  {
    hide Print;
    assert ([l] + rest)[0] == l && ([l] + rest)[1..] == rest;
    if |text| + |Print(l)| < cap {
      var kept := Kept(rest, |text| + |Print(l)|, cap);
      assert ([l] + kept)[0] == l && ([l] + kept)[1..] == kept;
    }
  }

  // ----- What the lines say -----

  predicate UniquePaths(recs: seq<FileRecord>) {
    forall i, j :: 0 <= i < j < |recs| ==> recs[i].path != recs[j].path
  }

  /** A line is true of a pair of snapshots. */
  predicate True(l: Line, pre: seq<FileRecord>, post: seq<FileRecord>) {
    var a, b := Lookup(pre, l.path), Lookup(post, l.path);
    match l
    case Added(_, size) => a.None? && b.Some? && b.value.size == size
    case Modified(_, oldSize, newSize) =>
      && a.Some? && b.Some? && a.value.size == oldSize && b.value.size == newSize
      && !(a.value.size == b.value.size && a.value.mtimeSec == b.value.mtimeSec
           && a.value.mtimeNsec == b.value.mtimeNsec)
    case Removed(_) => a.Some? && b.None?
  }

  lemma LookupUnique(recs: seq<FileRecord>, r: FileRecord)
    requires UniquePaths(recs) && r in recs
    ensures Lookup(recs, r.path) == Some(r)
  {
  }

  lemma {:induction false} ChangesAre(pre: seq<FileRecord>, post: seq<FileRecord>, l: Line)
    ensures l in Changes(pre, post) <==> exists i :: 0 <= i < |post| && l in LineOf(pre, post[i])
    decreases |post|
  {
    hide LineOf;
    if post != [] {
      ChangesAre(pre, post[1..], l);
      if l in Changes(pre, post[1..]) {
        var i :| 0 <= i < |post[1..]| && l in LineOf(pre, post[1..][i]);
        assert post[i + 1] == post[1..][i];
      }
      if i :| 0 < i < |post| && l in LineOf(pre, post[i]) {
        assert post[1..][i - 1] == post[i];
      }
    }
  }

  lemma {:induction false} RemovalsAre(pre: seq<FileRecord>, post: seq<FileRecord>, l: Line)
    ensures l in Removals(pre, post) <==> l.Removed? && Lookup(pre, l.path).Some? && Lookup(post, l.path).None?
    decreases |pre|
  {
    if pre != [] {
      RemovalsAre(pre[1..], post, l);
    }
  }

  /** The diff says all that is true of the two snapshots and nothing else. */
  lemma DiffLinesAreTrue(pre: seq<FileRecord>, post: seq<FileRecord>, l: Line)
    requires UniquePaths(pre) && UniquePaths(post)
    ensures l in DiffLines(pre, post) <==> True(l, pre, post)
  {
    ChangesAre(pre, post, l);
    RemovalsAre(pre, post, l);
    forall i | 0 <= i < |post| && l in LineOf(pre, post[i]) ensures Lookup(post, l.path) == Some(post[i]) {
      LookupUnique(post, post[i]);
    }
    if True(l, pre, post) && !l.Removed? {
      var b := Lookup(post, l.path).value;
      var i :| 0 <= i < |post| && post[i] == b;
      assert l in LineOf(pre, post[i]);
    }
  }

  /** The paths of the lines are among those of the records, in the same order. */
  predicate SubPaths(lines: seq<Line>, recs: seq<FileRecord>)
    decreases recs
  {
    || lines == []
    || (recs != []
        && (SubPaths(lines, recs[1..]) || (lines[0].path == recs[0].path && SubPaths(lines[1..], recs[1..]))))
  }

  lemma {:induction false} ChangesInOrder(pre: seq<FileRecord>, post: seq<FileRecord>)
    ensures SubPaths(Changes(pre, post), post) && forall l :: l in Changes(pre, post) ==> !l.Removed?
    decreases |post|
  {
    hide Lookup;
    if post != [] {
      ChangesInOrder(pre, post[1..]);
      var own, rest := LineOf(pre, post[0]), Changes(pre, post[1..]);
      if own != [] {
        assert (own + rest)[1..] == rest;
      } else {
        assert own + rest == rest;
      }
    }
  }

  lemma {:induction false} RemovalsInOrder(pre: seq<FileRecord>, post: seq<FileRecord>)
    ensures SubPaths(Removals(pre, post), pre) && forall l :: l in Removals(pre, post) ==> l.Removed?
    decreases |pre|
  {
    hide Lookup;
    if pre != [] {
      RemovalsInOrder(pre[1..], post);
      var rest := Removals(pre[1..], post);
      if Lookup(post, pre[0].path).None? {
        assert ([Removed(pre[0].path)] + rest)[1..] == rest;
      } else {
        assert [] + rest == rest;
      }
    }
  }

  /** The first n lines are additions and modifications, in the order of the second snapshot; then come the
      removals, in the order of the first. */
  lemma LinesInOrder(pre: seq<FileRecord>, post: seq<FileRecord>) returns (n: nat)
    ensures n <= |DiffLines(pre, post)|
    ensures var a, b := DiffLines(pre, post)[..n], DiffLines(pre, post)[n..];
            && (forall l :: l in a ==> !l.Removed?) && SubPaths(a, post)
            && (forall l :: l in b ==> l.Removed?) && SubPaths(b, pre)
  {
    n := |Changes(pre, post)|;
    ChangesInOrder(pre, post);
    RemovalsInOrder(pre, post);
    hide Changes, Removals, SubPaths;
    assert DiffLines(pre, post)[..n] == Changes(pre, post) && DiffLines(pre, post)[n..] == Removals(pre, post);
  }

  /** The buffer takes a selection of the lines, and all of them when they fit together. */
  lemma {:induction false} KeptIsSelection(lines: seq<Line>, used: nat, cap: nat)
    ensures forall l :: l in Kept(lines, used, cap) ==> l in lines
    ensures used + |PrintAll(lines)| < cap ==> Kept(lines, used, cap) == lines
    decreases |lines|
  {
    hide Print;
    if lines != [] {
      KeptIsSelection(lines[1..], used, cap);
      KeptIsSelection(lines[1..], used + |Print(lines[0])|, cap);
    }
  }

  // ----- One line for each path -----

  predicate LinesApart(lines: seq<Line>) {
    forall i, j :: 0 <= i < j < |lines| ==> lines[i].path != lines[j].path
  }

  lemma {:induction false} ChangesApart(pre: seq<FileRecord>, post: seq<FileRecord>)
    requires UniquePaths(post)
    ensures LinesApart(Changes(pre, post))
    decreases |post|
  {
    if post != [] {
      ChangesApart(pre, post[1..]);
      var one, rest := LineOf(pre, post[0]), Changes(pre, post[1..]);
      forall j | 0 <= j < |rest| ensures rest[j].path != post[0].path {
        ChangesAre(pre, post[1..], rest[j]);
        assert rest[j] in rest;
      }
    }
  }

  lemma {:induction false} RemovalsApart(pre: seq<FileRecord>, post: seq<FileRecord>)
    requires UniquePaths(pre)
    ensures LinesApart(Removals(pre, post))
    decreases |pre|
  {
    if pre != [] {
      RemovalsApart(pre[1..], post);
      var rest := Removals(pre[1..], post);
      forall j | 0 <= j < |rest| ensures rest[j].path != pre[0].path {
        RemovalsAre(pre[1..], post, rest[j]);
        assert rest[j] in rest;
      }
    }
  }

  /** A diff has at most one line for a path. */
  lemma DiffLinesApart(pre: seq<FileRecord>, post: seq<FileRecord>)
    requires UniquePaths(pre) && UniquePaths(post)
    ensures LinesApart(DiffLines(pre, post))
  {
    hide Changes, Removals, Lookup;
    ChangesApart(pre, post);
    RemovalsApart(pre, post);
    var a, b := Changes(pre, post), Removals(pre, post);
    forall i, j | 0 <= i < |a| && 0 <= j < |b| ensures a[i].path != b[j].path {
      assert a[i] in a && b[j] in b;
      ChangesAre(pre, post, a[i]);
      RemovalsAre(pre, post, b[j]);
    }
  }

  lemma {:induction false} KeptApart(lines: seq<Line>, used: nat, cap: nat)
    requires LinesApart(lines)
    ensures LinesApart(Kept(lines, used, cap))
    decreases |lines|
  {
    hide Print;
    if lines != [] {
      KeptApart(lines[1..], used, cap);
      KeptApart(lines[1..], used + |Print(lines[0])|, cap);
      var kept := Kept(lines[1..], used + |Print(lines[0])|, cap);
      KeptIsSelection(lines[1..], used + |Print(lines[0])|, cap);
      forall j | 0 <= j < |kept| ensures kept[j].path != lines[0].path {
        assert kept[j] in kept && kept[j] in lines[1..];
      }
    }
  }
}
