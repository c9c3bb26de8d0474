/** `sync_mounts_from_guest` of `host/axiom/vm.py`: the host reads the guest's diff and replays it
    on its own copies of the mounted directories. */
module HostSync {
  import opened Search
  import opened Diff
  import opened DecimalText
  import opened Bytes
  import opened FileTransfer

  // ----- Reading the diff -----

  /** `str.splitlines` breaks lines at these characters. */
  predicate LineBreak(c: char) {
    var n := c as int;
    0x0A <= n <= 0x0D || 0x1C <= n <= 0x1E || n == 0x85 || n == 0x2028 || n == 0x2029
  }

  /** `str.split` separates words at these. */
  predicate Space(c: char) {
    var n := c as int;
    LineBreak(c) || n == 0x20 || n == 0x09 || n == 0x1F || n == 0xA0 || n == 0x1680
    || 0x2000 <= n <= 0x200A || n == 0x202F || n == 0x205F || n == 0x3000
  }

  /** The index of the first line break, or the length. */
  function LineEnd(s: string): (n: nat)
    ensures n <= |s| && (n < |s| ==> LineBreak(s[n])) && forall i :: 0 <= i < n ==> !LineBreak(s[i])
    decreases s
  {
    if s == "" || LineBreak(s[0]) then 0 else 1 + LineEnd(s[1..])
  }

  /** The lines of a text; empty ones, which the caller skips, may be more than `splitlines` gives. */
  function Lines(s: string): seq<string>
    decreases |s|
  {
    if LineEnd(s) == |s| then [s] else [s[..LineEnd(s)]] + Lines(s[LineEnd(s) + 1..])
  }

  /** The index of the first character that is a space, or is not one. */
  function Run(s: string, space: bool): (n: nat)
    ensures n <= |s| && (n < |s| ==> Space(s[n]) != space) && forall i :: 0 <= i < n ==> Space(s[i]) == space
    decreases s
  {
    if s == "" || Space(s[0]) != space then 0 else 1 + Run(s[1..], space)
  }

  function Words(s: string): seq<string>
    decreases |s|
  {
    var t := s[Run(s, true)..];
    if t == "" then [] else [t[..Run(t, false)]] + Words(t[Run(t, false)..])
  }

  datatype Fact = Fact(action: string, path: string)

  /** The first two words of a line, when there are two. */
  function FactOf(line: string): Option<Fact> {
    var w := Words(line);
    if |w| < 2 then None else Some(Fact(w[0], w[1]))
  }

  function LineFacts(line: string): seq<Fact> {
    match FactOf(line) case None => [] case Some(f) => [f]
  }

  function FactsOf(lines: seq<string>): seq<Fact>
    decreases lines
  {
    if lines == [] then [] else LineFacts(lines[0]) + FactsOf(lines[1..])
  }

  function Facts(text: string): seq<Fact> { FactsOf(Lines(text)) }

  // ----- Replaying it -----

  /** Files by path: of the guest by full path, of a mount by the path below it. */
  type Dir = map<string, seq<byte>>

  predicate Under(path: string, mount: string) { path == mount || mount + "/" <= path }

  /** `lstrip("/")`. */
  function Relative(s: string): (r: string)
    ensures r == "" || r[0] != '/'
    decreases s
  {
    if s != "" && s[0] == '/' then Relative(s[1..]) else s
  }

  /** Facts for which the host reads a file. */
  predicate Fetches(f: Fact) { f.action == "+" || f.action == "M" }

  /** What `read_file_all` returns for a path, when its requests fare as `reading` says. */
  function Fetch(guest: Dir, path: string, reading: nat -> ReadEnv): Answer<seq<byte>> {
    if path in guest then FetchContent(guest[path], reading) else MicroVMError
  }

  /** One fact on one mount. A failed `read_file_all`, and writing or unlinking the mounted directory
      itself, raise exceptions that `sync_mounts_from_guest` suppresses. */
  function Replay(dir: Dir, mount: string, f: Fact, guest: Dir, reading: nat -> ReadEnv): Dir {
    if !Under(f.path, mount) then dir
    else
      var rel := Relative(f.path[|mount|..]);
      if rel == "" then dir
      else if Fetches(f) then
        var data := Fetch(guest, f.path, reading);
        if data.Done? then dir[rel := data.value] else dir
      else if f.action == "-" then dir - {rel}
      else dir
  }

  /** Whether a fact is counted as synchronized. */
  predicate Counted(mount: string, f: Fact, guest: Dir, reading: nat -> ReadEnv) {
    && Under(f.path, mount) && Relative(f.path[|mount|..]) != ""
    && (f.action == "-" || (Fetches(f) && Fetch(guest, f.path, reading).Done?))
  }

  /** The facts from number i on; `readings(i)` is how the requests fare that fact i takes. */
  function ReplayAll(dir: Dir, mount: string, facts: seq<Fact>, guest: Dir, i: nat,
                     readings: nat -> nat -> ReadEnv): Dir
    decreases facts
  {
    if facts == [] then dir
    else ReplayAll(Replay(dir, mount, facts[0], guest, readings(i)), mount, facts[1..], guest, i + 1, readings)
  }

  /** How often one fact is counted, on the first n mounts. */
  function CountOn(mounts: seq<string>, n: nat, f: Fact, guest: Dir, i: nat, env: nat -> nat -> nat -> ReadEnv): nat
    requires n <= |mounts|
  {
    if n == 0 then 0
    else CountOn(mounts, n - 1, f, guest, i, env) + if Counted(mounts[n - 1], f, guest, env(n - 1)(i)) then 1 else 0
  }

  function CountAll(mounts: seq<string>, facts: seq<Fact>, guest: Dir, i: nat, env: nat -> nat -> nat -> ReadEnv): nat
    decreases facts
  {
    if facts == [] then 0
    else CountOn(mounts, |mounts|, facts[0], guest, i, env) + CountAll(mounts, facts[1..], guest, i + 1, env)
  }

  /** The guest's file of a path, seen through the encoding of paths as bytes. */
  ghost predicate ServesAt(files: Files, encode: string -> seq<byte>, guest: Dir, path: string) {
    && (path in guest <==> 0 < |encode(path)| < 4096 && Exists(files, encode(path)))
    && (path in guest ==> guest[path] == files[CString(encode(path))])
  }

  /** The guest's files that facts ask for. */
  ghost predicate Serves(files: Files, encode: string -> seq<byte>, guest: Dir, facts: seq<Fact>) {
    forall f :: f in facts && Fetches(f) ==> ServesAt(files, encode, guest, f.path)
  }

  /** The environment of a synchronization: the encoding of paths, how the reads of the connection are
      cut, and how request k of fact i fares on mount m, as `env(m)(i)(k)`. */
  datatype Link = Link(encode: string -> seq<byte>, cut: seq<byte> -> seq<seq<byte>>,
                       env: nat -> nat -> nat -> ReadEnv) {
    ghost predicate Possible() { Cuts(cut) && forall m: nat, i: nat, k: nat :: env(m)(i)(k).Possible() }
  }

  /** The host's side: its mounts, each with its own directory. */
  class Host {
    const mounts: seq<string>
    var dirs: seq<Dir>

    ghost predicate Valid()
      reads this
    {
      |dirs| == |mounts|
    }

    constructor (mounts: seq<string>, dirs: seq<Dir>)
      requires |dirs| == |mounts|
      ensures Valid() && this.mounts == mounts && this.dirs == dirs
    {
      this.mounts := mounts;
      this.dirs := dirs;
    }

    /** The loop over lines, each replayed on every mount that contains its path. */
    method SyncMountsFromGuest(diffText: string, server: Guest, ghost guest: Dir, link: Link) returns (total: nat)
      requires Valid() && link.Possible() && Serves(server.files, link.encode, guest, Facts(diffText))
      modifies this
      ensures Valid() && total == CountAll(mounts, Facts(diffText), guest, 0, link.env)
      ensures forall m :: 0 <= m < |mounts| ==>
                dirs[m] == ReplayAll(old(dirs)[m], mounts[m], Facts(diffText), guest, 0, link.env(m))
    {
      total := 0;
      if |mounts| == 0 {
        NothingCounted(mounts, Facts(diffText), guest, 0, link.env);
        return;
      }
      hide *;
      var lines := Lines(diffText);
      var n := 0;
      ghost var was, all := dirs, Facts(diffText);
      TrackStart(this, lines, diffText, guest, link);
      for i := 0 to |lines|
        invariant Valid() && Serves(server.files, link.encode, guest, FactsOf(lines[i..]))
        invariant OnTrack(mounts, was, all, dirs, total, FactsOf(lines[i..]), n, guest, link.env)
      {
        FirstFact(lines, i);
        ServesBoth(server.files, link.encode, guest, LineFacts(lines[i]), FactsOf(lines[i + 1..]));
        n, total := SyncLine(lines[i], server, guest, n, total, link, was, all, FactsOf(lines[i + 1..]));
      }
      TrackEnd(mounts, was, all, dirs, total, lines, n, guest, link.env);
    }

    /** One round of the loop. */
    method SyncLine(line: string, server: Guest, ghost guest: Dir, n: nat, total: nat, link: Link,
                    ghost was: seq<Dir>, ghost all: seq<Fact>, ghost rest: seq<Fact>) returns (n': nat, total': nat)
      requires Valid() && link.Possible() && Serves(server.files, link.encode, guest, LineFacts(line))
      requires OnTrack(mounts, was, all, dirs, total, LineFacts(line) + rest, n, guest, link.env)
      modifies this
      ensures Valid() && OnTrack(mounts, was, all, dirs, total', rest, n', guest, link.env)
    {
      hide OnTrack, FactOf;
      n', total' := n, total;
      match FactOf(line) {
        case None =>
          assert [] + rest == rest;
        case Some(f) =>
          ghost var before := dirs;
          var count := ReplayOnAll(f, server, guest, n, link);
          n', total' := n + 1, total + count;
          TrackStep(mounts, was, all, before, total, f, rest, n, guest, link.env, dirs, count);
      }
    }

    /** The inner loop over the mounts. */
    method ReplayOnAll(f: Fact, server: Guest, ghost guest: Dir, i: nat, link: Link) returns (count: nat)
      requires Valid() && link.Possible() && (Fetches(f) ==> ServesAt(server.files, link.encode, guest, f.path))
      modifies this
      ensures Valid() && count == CountOn(mounts, |mounts|, f, guest, i, link.env)
      ensures forall m :: 0 <= m < |mounts| ==> dirs[m] == Replay(old(dirs)[m], mounts[m], f, guest, link.env(m)(i))
    {
      count := 0;
      for j := 0 to |mounts|
        invariant Valid() && count == CountOn(mounts, j, f, guest, i, link.env)
        invariant forall m :: 0 <= m < j ==> dirs[m] == Replay(old(dirs)[m], mounts[m], f, guest, link.env(m)(i))
        invariant forall m :: j <= m < |mounts| ==> dirs[m] == old(dirs)[m]
      {
        var dir, one := ReplayOnOne(dirs[j], mounts[j], f, server, guest, link, link.env(j)(i));
        dirs := dirs[j := dir];
        count := count + one;
      }
    }

    /** One fact on one mount: file contents come from `read_file_all`. */
    static method ReplayOnOne(dir: Dir, mount: string, f: Fact, server: Guest, ghost guest: Dir, link: Link,
                              reading: nat -> ReadEnv) returns (after: Dir, count: nat)
      requires link.Possible() && (Fetches(f) ==> ServesAt(server.files, link.encode, guest, f.path))
      requires forall k: nat :: reading(k).Possible()
      ensures after == Replay(dir, mount, f, guest, reading)
      ensures count == if Counted(mount, f, guest, reading) then 1 else 0
    {
      after, count := dir, 0;
      if Under(f.path, mount) {
        var rel := Relative(f.path[|mount|..]);
        if Fetches(f) {
          var data := ReadFileAll(server, link.encode(f.path), reading, link.cut);
          assert data == Fetch(guest, f.path, reading);
          if data.Done? && rel != "" {
            after, count := dir[rel := data.value], 1;
          }
        } else if f.action == "-" && rel != "" {
          after, count := dir - {rel}, 1;
        }
      }
    }
  }

  /** Replaying the remaining facts from number n on leads to what replaying all facts leads to. */
  ghost predicate OnTrack(mounts: seq<string>, was: seq<Dir>, all: seq<Fact>, dirs: seq<Dir>, total: nat,
                          rest: seq<Fact>, n: nat, guest: Dir, env: nat -> nat -> nat -> ReadEnv) {
    && |was| == |mounts| == |dirs|
    && (forall m :: 0 <= m < |mounts| ==>
          ReplayAll(dirs[m], mounts[m], rest, guest, n, env(m)) == ReplayAll(was[m], mounts[m], all, guest, 0, env(m)))
    && total + CountAll(mounts, rest, guest, n, env) == CountAll(mounts, all, guest, 0, env)
  }

  lemma TrackStart(host: Host, lines: seq<string>, text: string, guest: Dir, link: Link)
    requires host.Valid() && lines == Lines(text)
    ensures FactsOf(lines[0..]) == Facts(text)
    ensures OnTrack(host.mounts, host.dirs, Facts(text), host.dirs, 0, FactsOf(lines[0..]), 0, guest, link.env)
  {
    assert lines[0..] == lines;
  }

  lemma TrackEnd(mounts: seq<string>, was: seq<Dir>, all: seq<Fact>, dirs: seq<Dir>, total: nat, lines: seq<string>,
                 n: nat, guest: Dir, env: nat -> nat -> nat -> ReadEnv)
    requires OnTrack(mounts, was, all, dirs, total, FactsOf(lines[|lines|..]), n, guest, env)
    ensures total == CountAll(mounts, all, guest, 0, env)
    ensures forall m :: 0 <= m < |mounts| ==> dirs[m] == ReplayAll(was[m], mounts[m], all, guest, 0, env(m))
  {
  }

  lemma ServesBoth(files: Files, encode: string -> seq<byte>, guest: Dir, a: seq<Fact>, b: seq<Fact>)
    requires Serves(files, encode, guest, a + b)
    ensures Serves(files, encode, guest, a) && Serves(files, encode, guest, b)
  {
  }

  lemma TrackStep(mounts: seq<string>, was: seq<Dir>, all: seq<Fact>, dirs: seq<Dir>, total: nat, f: Fact,
                  rest: seq<Fact>, n: nat, guest: Dir, env: nat -> nat -> nat -> ReadEnv, next: seq<Dir>, count: nat)
    requires OnTrack(mounts, was, all, dirs, total, [f] + rest, n, guest, env)
    requires |next| == |mounts| && count == CountOn(mounts, |mounts|, f, guest, n, env)
    requires forall m :: 0 <= m < |mounts| ==> next[m] == Replay(dirs[m], mounts[m], f, guest, env(m)(n))
    ensures OnTrack(mounts, was, all, next, total + count, rest, n + 1, guest, env)
  {
    hide Replay, CountOn;
    assert ([f] + rest)[1..] == rest;
  }

  /** The facts of the lines from i on begin with that of line i, if it has one. */
  lemma FirstFact(lines: seq<string>, i: nat)
    requires i < |lines|
    ensures var rest := FactsOf(lines[i + 1..]);
            && FactsOf(lines[i..]) == LineFacts(lines[i]) + rest
  {
    hide FactOf;
    assert lines[i..][0] == lines[i] && lines[i..][1..] == lines[i + 1..];
  }

  lemma {:induction false} NothingCounted(mounts: seq<string>, facts: seq<Fact>, guest: Dir, i: nat,
                                          env: nat -> nat -> nat -> ReadEnv)
    requires mounts == []
    ensures CountAll(mounts, facts, guest, i, env) == 0
    decreases |facts|
  {
    if facts != [] {
      NothingCounted(mounts, facts[1..], guest, i + 1, env);
    }
  }

  // ----- The parser recovers what was printed -----

  /** A path that survives the host's splitting into lines and words. */
  predicate Clean(path: string) { path != "" && forall i :: 0 <= i < |path| ==> !Space(path[i]) }

  function ToFact(l: Line): Fact { Fact(Action(l), l.path) }

  function ToFacts(lines: seq<Line>): seq<Fact>
    decreases lines
  {
    if lines == [] then [] else [ToFact(lines[0])] + ToFacts(lines[1..])
  }

  lemma {:induction false} RunOf(a: string, b: string, space: bool)
    requires forall i :: 0 <= i < |a| ==> Space(a[i]) == space
    requires b == "" || Space(b[0]) != space
    ensures Run(a + b, space) == |a|
    decreases |a|
  {
    if a == "" {
      assert a + b == b;
    } else {
      assert (a + b)[1..] == a[1..] + b;
      RunOf(a[1..], b, space);
    }
  }

  lemma FirstWord(w: string, rest: string)
    requires Clean(w) && (rest == "" || Space(rest[0]))
    ensures Words(w + rest) == [w] + Words(rest)
  {
    RunOf("", w + rest, true);
    assert "" + (w + rest) == w + rest && (w + rest)[0..] == w + rest;
    RunOf(w, rest, false);
    assert (w + rest)[..|w|] == w && (w + rest)[|w|..] == rest;
  }

  lemma SkipSpace(rest: string)
    ensures Words(" " + rest) == Words(rest)
  {
    var s := " " + rest;
    assert s[1..] == rest;
    assert Run(s, true) == 1 + Run(rest, true);
    assert s[Run(s, true)..] == rest[Run(rest, true)..];
  }

  lemma TwoWords(action: string, path: string, rest: string)
    requires Clean(action) && Clean(path) && (rest == "" || rest[0] == ' ')
    ensures FactOf(action + (" " + (path + rest))) == Some(Fact(action, path))
  {
    hide Clean, Words;
    FirstWord(action, " " + (path + rest));
    SkipSpace(path + rest);
    FirstWord(path, rest);
    SpacesAre();
  }

  lemma SpacesAre()
    ensures Space(' ')
  {
  }

  lemma {:induction false} LineEndOf(a: string, b: string)
    requires forall i :: 0 <= i < |a| ==> !LineBreak(a[i])
    requires b != "" && LineBreak(b[0])
    ensures LineEnd(a + b) == |a|
    decreases |a|
  {
    if a == "" {
      assert a + b == b;
    } else {
      assert (a + b)[1..] == a[1..] + b;
      LineEndOf(a[1..], b);
    }
  }

  lemma FirstLine(a: string, rest: string)
    requires forall i :: 0 <= i < |a| ==> !LineBreak(a[i])
    ensures Lines(a + "\n" + rest) == [a] + Lines(rest)
  {
    var s := a + "\n" + rest;
    assert s == a + ("\n" + rest);
    LineEndOf(a, "\n" + rest);
    assert s[..|a|] == a && s[|a| + 1..] == rest;
  }

  /** A printed line without its line feed. */
  function Body(l: Line): string { Action(l) + (" " + (l.path + Sizes(l))) }

  lemma PrintIsBody(l: Line)
    ensures Print(l) == Body(l) + "\n"
  {
    hide Action, Sizes;
  }

  predicate NoBreak(s: string) { forall i :: 0 <= i < |s| ==> !LineBreak(s[i]) }

  lemma NoBreakConcat(a: string, b: string)
    requires NoBreak(a) && NoBreak(b)
    ensures NoBreak(a + b)
  {
  }

  lemma DecimalHasNoBreak(n: nat)
    ensures NoBreak(Decimal(n))
  {
    assert forall c: char :: IsDigit(c) ==> !LineBreak(c);
  }

  lemma SizesHaveNoBreak(l: Line)
    ensures NoBreak(Sizes(l)) && (Sizes(l) == "" || Sizes(l)[0] == ' ')
  {
    hide Decimal;
    match l
    case Added(path, size) =>
      DecimalHasNoBreak(size);
      NoBreakConcat(" (", Decimal(size));
      NoBreakConcat(" (" + Decimal(size), " B)");
    case Modified(path, oldSize, newSize) =>
      DecimalHasNoBreak(oldSize);
      DecimalHasNoBreak(newSize);
      NoBreakConcat(" (", Decimal(oldSize));
      NoBreakConcat(" (" + Decimal(oldSize), " -> ");
      NoBreakConcat(" (" + Decimal(oldSize) + " -> ", Decimal(newSize));
      NoBreakConcat(" (" + Decimal(oldSize) + " -> " + Decimal(newSize), " B)");
    case Removed(path) =>
  }

  lemma BodyParses(l: Line)
    requires Clean(l.path)
    ensures NoBreak(Body(l)) && FactOf(Body(l)) == Some(ToFact(l))
  {
    hide Sizes, FactOf;
    SizesHaveNoBreak(l);
    NoBreakConcat(l.path, Sizes(l));
    NoBreakConcat(" ", l.path + Sizes(l));
    NoBreakConcat(Action(l), " " + (l.path + Sizes(l)));
    TwoWords(Action(l), l.path, Sizes(l));
  }

  /** From any printed selection of lines, the host recovers exactly their actions and paths. */
  lemma {:induction false} FactsOfPrinted(lines: seq<Line>)
    requires forall l :: l in lines ==> Clean(l.path)
    ensures Facts(PrintAll(lines)) == ToFacts(lines)
    decreases |lines|
  {
    hide Print, Body, FactOf;
    if lines == [] {
      assert Words("") == [];
      NothingInEmpty();
    } else {
      var l, rest := lines[0], PrintAll(lines[1..]);
      PrintIsBody(l);
      BodyParses(l);
      FirstLine(Body(l), rest);
      FactsOfPrinted(lines[1..]);
      assert ([Body(l)] + Lines(rest))[1..] == Lines(rest);
    }
  }

  lemma NothingInEmpty()
    ensures Facts("") == []
  {
  }

  lemma {:induction false} WordsAreClean(s: string)
    ensures forall w :: w in Words(s) ==> Clean(w)
    decreases |s|
  {
    var t := s[Run(s, true)..];
    if t != "" {
      WordsAreClean(t[Run(t, false)..]);
    }
  }

  lemma {:induction false} FactsAreClean(lines: seq<string>)
    ensures forall f :: f in FactsOf(lines) ==> Clean(f.path)
    decreases |lines|
  {
    hide Words;
    if lines != [] {
      WordsAreClean(lines[0]);
      FactsAreClean(lines[1..]);
    }
  }

  /** The host recovers a printed list of lines exactly when no path in it is empty or has white space:
      any other path is cut short, or lost. */
  lemma PathSurvives(lines: seq<Line>)
    ensures Facts(PrintAll(lines)) == ToFacts(lines) <==> forall l :: l in lines ==> Clean(l.path)
  {
    hide PrintAll, Facts;
    FactsInAreClean(PrintAll(lines));
    if forall l :: l in lines ==> Clean(l.path) {
      FactsOfPrinted(lines);
    } else {
      var l :| l in lines && !Clean(l.path);
      var j :| 0 <= j < |lines| && lines[j] == l;
      ToFactsAt(lines);
      assert ToFacts(lines)[j] in ToFacts(lines);
    }
  }

  /** A path with a space in it is cut at the space: the host removes another file. */
  lemma SpaceCutsPath(name: string, tail: string)
    requires Clean(name) && NoBreak(tail)
    ensures Facts(PrintAll([Removed(name + " " + tail)])) == [Fact("-", name)]
  {
    hide Print, FactOf, Clean, Words;
    var l := Removed(name + " " + tail);
    var body := "-" + (" " + (name + (" " + tail)));
    assert Body(l) == body by { assert name + " " + tail + "" == name + (" " + tail); }
    DashIsClean();
    TwoWords("-", name, " " + tail);
    BodyOfTwo(name, tail);
    PrintIsBody(l);
    FirstLine(body, "");
    NothingInEmpty();
    assert PrintAll([l]) == Print(l) + PrintAll([l][1..]) && PrintAll([l][1..]) == "";
    assert body + "\n" + "" == Print(l) + "";
    assert ([body] + Lines(""))[1..] == Lines("");
  }

  lemma DashIsClean()
    ensures Clean("-")
  {
  }

  lemma BodyOfTwo(name: string, tail: string)
    requires Clean(name) && NoBreak(tail)
    ensures NoBreak("-" + (" " + (name + (" " + tail))))
  {
    NoBreakConcat(" ", tail);
    NoBreakConcat(name, " " + tail);
    NoBreakConcat(" ", name + (" " + tail));
    NoBreakConcat("-", " " + (name + (" " + tail)));
  }

  lemma FactsInAreClean(text: string)
    ensures forall f :: f in Facts(text) ==> Clean(f.path)
  {
    FactsAreClean(Lines(text));
  }

  // ----- Replaying a diff carries the host from the old files to the new -----

  /** A relative path as the host keeps it. */
  predicate Proper(rel: string) { rel != "" && rel[0] != '/' }

  function Full(mount: string, rel: string): string { mount + "/" + rel }

  /** Below the mount, one slash and then a name: what the directory scan produces. */
  predicate Normal(path: string, mount: string) {
    Under(path, mount) ==> |path| > |mount| + 1 && path[|mount| + 1] != '/'
  }

  function Look(g: Dir, path: string): Option<seq<byte>> { if path in g then Some(g[path]) else None }

  /** The host's entry for rel is what the guest files g have at the full path. */
  predicate Agrees(dir: Dir, mount: string, rel: string, g: Dir) { Look(dir, rel) == Look(g, Full(mount, rel)) }

  ghost predicate Mirrors(dir: Dir, mount: string, g: Dir) {
    forall rel :: Proper(rel) ==> Agrees(dir, mount, rel, g)
  }

  lemma RelativeOfFull(path: string, mount: string)
    requires Under(path, mount) && Normal(path, mount)
    ensures var rel := Relative(path[|mount|..]); Proper(rel) && Full(mount, rel) == path
  {
    var s := path[|mount|..];
    assert s[0] == '/' && s[1] == path[|mount| + 1];
    assert s[1..] == path[|mount| + 1..];
    assert Relative(s) == Relative(s[1..]) == s[1..];
  }

  lemma FullIsUnder(mount: string, rel: string)
    ensures Under(Full(mount, rel), mount) && Full(mount, rel)[|mount|..] == "/" + rel
    ensures Proper(rel) ==> Relative("/" + rel) == rel
  {
    assert ("/" + rel)[1..] == rel;
  }

  /** What one fact makes of the entry of a path. */
  function Entry(e: Option<seq<byte>>, f: Fact, path: string, guest: Dir, reading: nat -> ReadEnv): Option<seq<byte>> {
    if f.path != path then e
    else if f.action == "-" then None
    else if Fetches(f) && Fetch(guest, path, reading).Done?
    then Some(Fetch(guest, path, reading).value)
    else e
  }

  function EntryAfter(e: Option<seq<byte>>, facts: seq<Fact>, path: string, guest: Dir, i: nat,
                      readings: nat -> nat -> ReadEnv): Option<seq<byte>>
    decreases facts
  {
    if facts == [] then e
    else EntryAfter(Entry(e, facts[0], path, guest, readings(i)), facts[1..], path, guest, i + 1, readings)
  }

  /** One fact touches the entry of its own path only. */
  lemma ReplayOne(dir: Dir, mount: string, f: Fact, guest: Dir, reading: nat -> ReadEnv, rel: string)
    requires Proper(rel) && Normal(f.path, mount)
    ensures Look(Replay(dir, mount, f, guest, reading), rel)
         == Entry(Look(dir, rel), f, Full(mount, rel), guest, reading)
  {
    hide Fetch;
    FullIsUnder(mount, rel);
    if Under(f.path, mount) {
      RelativeOfFull(f.path, mount);
    }
  }

  /** After a replay, each entry is what the facts on its own path, in order, make of it. */
  lemma {:induction false} ReplayAt(dir: Dir, mount: string, facts: seq<Fact>, guest: Dir, i: nat,
                                    readings: nat -> nat -> ReadEnv, rel: string)
    requires Proper(rel) && forall f :: f in facts ==> Normal(f.path, mount)
    ensures Look(ReplayAll(dir, mount, facts, guest, i, readings), rel)
         == EntryAfter(Look(dir, rel), facts, Full(mount, rel), guest, i, readings)
    decreases |facts|
  {
    hide Replay, Under, Relative, Entry;
    if facts != [] {
      ReplayOne(dir, mount, facts[0], guest, readings(i), rel);
      ReplayAt(Replay(dir, mount, facts[0], guest, readings(i)), mount, facts[1..], guest, i + 1, readings, rel);
    }
  }

  /** A path that no fact names keeps its entry; a path that one fact names gets what that one makes of it. */
  lemma {:induction false} EntryOfOne(e: Option<seq<byte>>, facts: seq<Fact>, path: string, guest: Dir, i: nat,
                                      readings: nat -> nat -> ReadEnv)
    requires forall j, k :: 0 <= j < k < |facts| ==> facts[j].path != facts[k].path
    ensures (forall j :: 0 <= j < |facts| ==> facts[j].path != path) ==>
              EntryAfter(e, facts, path, guest, i, readings) == e
    ensures forall j :: 0 <= j < |facts| && facts[j].path == path ==>
              EntryAfter(e, facts, path, guest, i, readings) == Entry(e, facts[j], path, guest, readings(i + j))
    decreases |facts|
  {
    hide Fetch;
    if facts != [] {
      EntryOfOne(Entry(e, facts[0], path, guest, readings(i)), facts[1..], path, guest, i + 1, readings);
      forall j | 0 < j < |facts| && facts[j].path == path
        ensures EntryAfter(e, facts, path, guest, i, readings) == Entry(e, facts[j], path, guest, readings(i + j))
      {
        assert facts[j] == facts[1..][j - 1];
      }
    }
  }

  lemma {:induction false} ToFactsAt(lines: seq<Line>)
    ensures |ToFacts(lines)| == |lines| && forall j :: 0 <= j < |lines| ==> ToFacts(lines)[j] == ToFact(lines[j])
    decreases |lines|
  {
    if lines != [] {
      ToFactsAt(lines[1..]);
    }
  }

  // ----- One run of a command -----

  /** The records are the files, one for each. */
  ghost predicate Describes(recs: seq<FileRecord>, g: Dir) {
    UniquePaths(recs) && forall path :: path in g <==> Lookup(recs, path).Some?
  }

  /** Files whose size and modification time did not change did not change. */
  ghost predicate StampsTell(pre: seq<FileRecord>, post: seq<FileRecord>, before: Dir, after: Dir) {
    forall path :: path in before && path in after ==>
      var a, b := Lookup(pre, path), Lookup(post, path);
      (a.Some? && b.Some? && a.value.size == b.value.size && a.value.mtimeSec == b.value.mtimeSec
       && a.value.mtimeNsec == b.value.mtimeNsec) ==>
        before[path] == after[path]
  }

  /** The two sides' view of one run: snapshots of the files before and after it, with paths that
      the diff can carry, and a host directory that mirrors the files before. */
  ghost predicate CommandRun(pre: seq<FileRecord>, post: seq<FileRecord>, before: Dir, after: Dir, dir: Dir,
                             mount: string) {
    && Describes(pre, before) && Describes(post, after) && StampsTell(pre, post, before, after)
    && (forall r :: r in pre + post ==> Clean(r.path) && Normal(r.path, mount))
    && Mirrors(dir, mount, before)
  }

  lemma LinePaths(pre: seq<FileRecord>, post: seq<FileRecord>, l: Line)
    requires UniquePaths(pre) && UniquePaths(post) && l in DiffLines(pre, post)
    ensures exists r :: r in pre + post && r.path == l.path
  {
    DiffLinesAreTrue(pre, post, l);
    var r := if Lookup(pre, l.path).Some? then Lookup(pre, l.path).value else Lookup(post, l.path).value;
    assert r in pre + post;
  }

  /** A path on which the diff has no line is the same before and after. */
  lemma MissingLine(pre: seq<FileRecord>, post: seq<FileRecord>, before: Dir, after: Dir, path: string)
    requires Describes(pre, before) && Describes(post, after) && StampsTell(pre, post, before, after)
    ensures (forall l :: l in DiffLines(pre, post) ==> l.path != path) ==> Look(before, path) == Look(after, path)
  {
    hide DiffLines;
    var a, b := Lookup(pre, path), Lookup(post, path);
    if a.None? && b.Some? {
      DiffLinesAreTrue(pre, post, Added(path, b.value.size));
    } else if a.Some? && b.None? {
      DiffLinesAreTrue(pre, post, Removed(path));
    } else if a.Some? && b.Some? && Differs(a.value, b.value) {
      DiffLinesAreTrue(pre, post, Modified(path, a.value.size, b.value.size));
    }
  }

  /** How the replay of one line's file fares: not at all, completely, or with a part of the file. */
  predicate Refused(reading: nat -> ReadEnv) { !reading(0).Fine() }

  ghost predicate Arrives(content: seq<byte>, reading: nat -> ReadEnv) {
    U32(|content|) && Undisturbed(|content|, reading)
  }

  /** The file of a line is left as it was, or is made what it should be, or it began with what it was
      before, and the transfer stops there. */
  ghost predicate Harmless(l: Line, before: Dir, after: Dir, reading: nat -> ReadEnv) {
    || l.Removed?
    || Refused(reading)
    || (l.path in after && Arrives(after[l.path], reading))
    || (l.path in before && l.path in after && before[l.path] <= after[l.path]
        && Arriving(|after[l.path]|, reading) == |before[l.path]|)
  }

  /** The file of a line is made what it should be, or was that already and is left alone. */
  ghost predicate Effective(l: Line, before: Dir, after: Dir, reading: nat -> ReadEnv) {
    || l.Removed?
    || (l.path in after && Arrives(after[l.path], reading))
    || (Refused(reading) && Look(before, l.path) == Look(after, l.path))
  }

  /** Every replayed line of the list is harmless. */
  ghost predicate AllHarmless(lines: seq<Line>, mount: string, before: Dir, after: Dir,
                              readings: nat -> nat -> ReadEnv) {
    forall j :: 0 <= j < |lines| && Under(lines[j].path, mount) ==> Harmless(lines[j], before, after, readings(j))
  }

  ghost predicate AllEffective(lines: seq<Line>, mount: string, before: Dir, after: Dir,
                               readings: nat -> nat -> ReadEnv) {
    forall j :: 0 <= j < |lines| && Under(lines[j].path, mount) ==> Effective(lines[j], before, after, readings(j))
  }

  lemma FetchFacts(guest: Dir, path: string, reading: nat -> ReadEnv, was: seq<byte>)
    requires path in guest
    ensures Fetch(guest, path, reading).Done? <==> !Refused(reading)
    ensures Fetch(guest, path, reading) == Done(guest[path]) <==> Arrives(guest[path], reading)
    ensures Fetch(guest, path, reading) == Done(was) <==>
            !Refused(reading) && was <= guest[path] && Arriving(|guest[path]|, reading) == |was|
  {
    hide FetchContent, Undisturbed, Arriving;
    WholeFile(guest[path], reading);
    WhichBeginning(guest[path], was, reading);
  }

  /** The entry that a replayed line leaves, against the files before and after. */
  lemma LineReplays(l: Line, pre: seq<FileRecord>, post: seq<FileRecord>, before: Dir, after: Dir,
                    reading: nat -> ReadEnv)
    requires Describes(pre, before) && Describes(post, after) && True(l, pre, post)
    ensures var e := Entry(Look(before, l.path), ToFact(l), l.path, after, reading);
            && ((e == Look(before, l.path) || e == Look(after, l.path)) <==> Harmless(l, before, after, reading))
            && (e == Look(after, l.path) <==> Effective(l, before, after, reading))
  {
    hide Fetch, Arrives, Arriving, Refused;
    if !l.Removed? {
      assert l.path in after;
      FetchFacts(after, l.path, reading, if l.path in before then before[l.path] else []);
    }
  }

  /** Lines with different paths, true of the two snapshots. */
  ghost predicate Selection(kept: seq<Line>, pre: seq<FileRecord>, post: seq<FileRecord>) {
    (forall l :: l in kept ==> l in DiffLines(pre, post)) && LinesApart(kept)
  }

  /** After the replay of a selection of lines, the entry of a path is as it was if no line names it, and
      otherwise as its line leaves it. */
  lemma SelectionReplays(pre: seq<FileRecord>, post: seq<FileRecord>, before: Dir, after: Dir, dir: Dir, mount: string,
                         kept: seq<Line>, readings: nat -> nat -> ReadEnv, rel: string)
    requires CommandRun(pre, post, before, after, dir, mount) && Selection(kept, pre, post) && Proper(rel)
    ensures var e, path := Look(ReplayAll(dir, mount, ToFacts(kept), after, 0, readings), rel), Full(mount, rel);
            && ((forall j :: 0 <= j < |kept| ==> kept[j].path != path) ==> e == Look(before, path))
            && (forall j :: 0 <= j < |kept| && kept[j].path == path ==>
                  && ((e == Look(before, path) || e == Look(after, path)) <==>
                      Harmless(kept[j], before, after, readings(j)))
                  && (e == Look(after, path) <==> Effective(kept[j], before, after, readings(j))))
  {
    hide ReplayAll, DiffLines, Under, Harmless, Effective, Entry;
    var facts, path := ToFacts(kept), Full(mount, rel);
    ToFactsAt(kept);
    forall f | f in facts ensures Normal(f.path, mount) {
      var j :| 0 <= j < |facts| && facts[j] == f;
      assert kept[j] in kept;
      LinePaths(pre, post, kept[j]);
    }
    ReplayAt(dir, mount, facts, after, 0, readings, rel);
    assert Agrees(dir, mount, rel, before);
    EntryOfOne(Look(dir, rel), facts, path, after, 0, readings);
    forall j | 0 <= j < |kept| && kept[j].path == path
      ensures True(kept[j], pre, post)
      ensures var e := Entry(Look(before, path), ToFact(kept[j]), path, after, readings(j));
              && ((e == Look(before, path) || e == Look(after, path)) <==>
                  Harmless(kept[j], before, after, readings(j)))
              && (e == Look(after, path) <==> Effective(kept[j], before, after, readings(j)))
    {
      assert kept[j] in kept;
      DiffLinesAreTrue(pre, post, kept[j]);
      LineReplays(kept[j], pre, post, before, after, readings(j));
    }
  }

  /** What the two laws of replay need of the lines that a diff buffer takes. */
  lemma KeptReplays(pre: seq<FileRecord>, post: seq<FileRecord>, before: Dir, after: Dir, dir: Dir, mount: string,
                    cap: nat)
    requires CommandRun(pre, post, before, after, dir, mount)
    ensures var kept := Kept(DiffLines(pre, post), 0, cap);
            && Selection(kept, pre, post) && Facts(PrintAll(kept)) == ToFacts(kept)
            && (|PrintAll(DiffLines(pre, post))| < cap ==> kept == DiffLines(pre, post))
            && forall j :: 0 <= j < |kept| ==> Normal(kept[j].path, mount)
  {
    hide Print, DiffLines, Kept, PrintAll, Facts;
    var lines := DiffLines(pre, post);
    var kept := Kept(lines, 0, cap);
    KeptIsSelection(lines, 0, cap);
    DiffLinesApart(pre, post);
    KeptApart(lines, 0, cap);
    forall l | l in kept ensures Clean(l.path) && Normal(l.path, mount) {
      LinePaths(pre, post, l);
    }
    FactsOfPrinted(kept);
  }

  /** Every entry is as it was before the command or as it is after it. */
  ghost predicate NothingElse(d: Dir, mount: string, before: Dir, after: Dir) {
    forall rel :: Proper(rel) ==> Agrees(d, mount, rel, before) || Agrees(d, mount, rel, after)
  }

  /** For any size of the diff buffer and any fate of the reads: the replay leaves every entry as it was
      before the command or as it is after it, if and only if the file of every replayed addition and
      modification is refused at once, arrives whole (it is below 4 GiB and no request fails), or arrives
      as it was before. */
  lemma NoThirdState(pre: seq<FileRecord>, post: seq<FileRecord>, before: Dir, after: Dir, dir: Dir, mount: string,
                     cap: nat, readings: nat -> nat -> ReadEnv)
    requires CommandRun(pre, post, before, after, dir, mount)
    ensures var kept := Kept(DiffLines(pre, post), 0, cap);
            NothingElse(ReplayAll(dir, mount, Facts(PrintAll(kept)), after, 0, readings), mount, before, after) <==>
            AllHarmless(kept, mount, before, after, readings)
  {
    hide ReplayAll, DiffLines, Kept, PrintAll, Facts, Harmless, Effective, Full, Look, Normal, CommandRun;
    var kept := Kept(DiffLines(pre, post), 0, cap);
    var d := ReplayAll(dir, mount, ToFacts(kept), after, 0, readings);
    KeptReplays(pre, post, before, after, dir, mount, cap);
    if NothingElse(d, mount, before, after) {
      forall j | 0 <= j < |kept| && Under(kept[j].path, mount)
        ensures Harmless(kept[j], before, after, readings(j))
      {
        RelativeOfFull(kept[j].path, mount);
        var rel := Relative(kept[j].path[|mount|..]);
        SelectionReplays(pre, post, before, after, dir, mount, kept, readings, rel);
        assert Agrees(d, mount, rel, before) || Agrees(d, mount, rel, after);
      }
    }
    if AllHarmless(kept, mount, before, after, readings) {
      forall rel | Proper(rel) ensures Agrees(d, mount, rel, before) || Agrees(d, mount, rel, after) {
        SelectionReplays(pre, post, before, after, dir, mount, kept, readings, rel);
        FullIsUnder(mount, rel);
      }
    }
  }

  /** When all lines fit, the host directory mirrors the files after the command if and only if the file of
      every addition and modification in the mount arrives whole, or is refused and did not change. */
  lemma DiffReplay(pre: seq<FileRecord>, post: seq<FileRecord>, before: Dir, after: Dir, dir: Dir, mount: string,
                   cap: nat, readings: nat -> nat -> ReadEnv)
    requires CommandRun(pre, post, before, after, dir, mount)
    requires |PrintAll(DiffLines(pre, post))| < cap
    ensures var lines := DiffLines(pre, post);
            Mirrors(ReplayAll(dir, mount, Facts(PrintAll(Kept(lines, 0, cap))), after, 0, readings), mount, after) <==>
            AllEffective(lines, mount, before, after, readings)
  {
    hide ReplayAll, DiffLines, Kept, PrintAll, Facts, Harmless, Effective, Full, Look, Normal;
    var lines := DiffLines(pre, post);
    var d := ReplayAll(dir, mount, ToFacts(lines), after, 0, readings);
    KeptReplays(pre, post, before, after, dir, mount, cap);
    if Mirrors(d, mount, after) {
      forall j | 0 <= j < |lines| && Under(lines[j].path, mount)
        ensures Effective(lines[j], before, after, readings(j))
      {
        RelativeOfFull(lines[j].path, mount);
        var rel := Relative(lines[j].path[|mount|..]);
        SelectionReplays(pre, post, before, after, dir, mount, lines, readings, rel);
        assert Agrees(d, mount, rel, after);
      }
    }
    if AllEffective(lines, mount, before, after, readings) {
      forall rel | Proper(rel) ensures Agrees(d, mount, rel, after) {
        SelectionReplays(pre, post, before, after, dir, mount, lines, readings, rel);
        FullIsUnder(mount, rel);
        if forall j :: 0 <= j < |lines| ==> lines[j].path != Full(mount, rel) {
          MissingLine(pre, post, before, after, Full(mount, rel));
        }
      }
    }
  }

  /** A third state: a file of 1 MiB that was changed, and whose second request fails, leaves its first
      quarter on the host. */
  lemma TruncatedFile(dir: Dir, mount: string, rel: string, old_: seq<byte>, new_: seq<byte>, reading: nat -> ReadEnv)
    requires Proper(rel) && |new_| == 4 * WORK_BUFFER && |old_| != WORK_BUFFER
    requires reading(0) == Opens(true, 0, WORK_BUFFER) && reading(1) == CannotOpen(EMFILE)
    ensures var path := Full(mount, rel);
            var d := Replay(dir[rel := old_], mount, Fact("M", path), map[path := new_], reading);
            rel in d && d[rel] == new_[..WORK_BUFFER] && d[rel] != old_ && d[rel] != new_
  {
    FullIsUnder(mount, rel);
    SecondRequestFails(new_, reading);
  }
}
