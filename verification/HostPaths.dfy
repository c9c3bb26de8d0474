/** Where the replay of a diff writes: `host_path / rel_path` in `sync_mounts_from_guest` of
    `host/axiom/vm.py`, with ".." followed upwards. */
module HostPaths {
  import opened Search
  import opened Bytes
  import opened FileTransfer
  import opened HostSync

  // ----- Paths -----

  /** What is between the slashes. */
  function Parts(s: string): (r: seq<string>)
    ensures r != []
    decreases |s|
  {
    if IndexOf(s, '/') == |s| then [s] else [s[..IndexOf(s, '/')]] + Parts(s[IndexOf(s, '/') + 1..])
  }

  function Slashed(parts: seq<string>): string
    requires parts != []
    decreases parts
  {
    if |parts| == 1 then parts[0] else parts[0] + "/" + Slashed(parts[1..])
  }

  lemma SlashedCons(head: string, rest: seq<string>)
    requires rest != []
    ensures Slashed([head] + rest) == head + "/" + Slashed(rest)
  {
    assert ([head] + rest)[1..] == rest;
  }

  lemma SplitAt(s: string, n: nat)
    requires n < |s| && s[n] == '/'
    ensures s[..n] + "/" + s[n + 1..] == s
  {
  }

  lemma {:induction false} SlashedParts(s: string)
    ensures Slashed(Parts(s)) == s
    decreases |s|
  {
    var n := IndexOf(s, '/');
    if n < |s| {
      SlashedParts(s[n + 1..]);
      SlashedCons(s[..n], Parts(s[n + 1..]));
      hide Slashed, IndexOf;
      SplitAt(s, n);
    }
  }

  /** Not a step in place or upwards. */
  predicate Name(part: string) { part != "" && part != "." && part != ".." }

  /** A directory, as the names from the root to it; the root is its own parent. */
  type Place = seq<string>

  function Go(at: Place, part: string): Place {
    if part == ".." then (if at == [] then [] else at[..|at| - 1]) else if Name(part) then at + [part] else at
  }

  function Walk(at: Place, parts: seq<string>): Place
    decreases |parts|
  {
    if parts == [] then at else Go(Walk(at, parts[..|parts| - 1]), parts[|parts| - 1])
  }

  /** The number of names minus that of "..". */
  function Depth(parts: seq<string>): int
    decreases |parts|
  {
    if parts == [] then 0
    else
      var last := parts[|parts| - 1];
      Depth(parts[..|parts| - 1]) + if last == ".." then -1 else if Name(last) then 1 else 0
  }

  /** No beginning has more ".." than names. */
  predicate NeverClimbs(parts: seq<string>) { forall k :: 0 <= k <= |parts| ==> Depth(parts[..k]) >= 0 }

  lemma WalkOn(at: Place, parts: seq<string>, k: nat)
    requires k < |parts|
    ensures Walk(at, parts[..k + 1]) == Go(Walk(at, parts[..k]), parts[k])
    ensures Depth(parts[..k + 1])
         == Depth(parts[..k]) + if parts[k] == ".." then -1 else if Name(parts[k]) then 1 else 0
  {
    assert parts[..k + 1][..k] == parts[..k];
  }

  // ----- Staying inside -----

  lemma {:induction false} DepthIsLength(at: Place, parts: seq<string>, k: nat)
    requires k <= |parts| && forall j :: 0 <= j <= k ==> Depth(parts[..j]) >= 0
    ensures at <= Walk(at, parts[..k]) && |Walk(at, parts[..k])| == |at| + Depth(parts[..k])
  {
    hide Name;
    if k > 0 {
      DepthIsLength(at, parts, k - 1);
      WalkOn(at, parts, k - 1);
    }
  }

  /** The first step above the start. */
  lemma FirstClimb(parts: seq<string>) returns (k: nat)
    requires !NeverClimbs(parts)
    ensures k < |parts| && Depth(parts[..k]) == 0 && parts[k] == ".."
    ensures forall j :: 0 <= j <= k ==> Depth(parts[..j]) >= 0
  {
    k := 0;
    assert parts[..0] == [];
    while Depth(parts[..k + 1]) >= 0
      invariant k < |parts| && forall j :: 0 <= j <= k ==> Depth(parts[..j]) >= 0
      decreases |parts| - k
    {
      k := k + 1;
    }
    WalkOn([], parts, k);
  }

  /** Every directory on the way is inside the mount's directory if and only if no beginning of the relative
      path has more ".." than names. */
  lemma WalkStaysInside(base: Place, parts: seq<string>)
    requires base != []
    ensures (forall k :: 0 <= k <= |parts| ==> base <= Walk(base, parts[..k])) <==> NeverClimbs(parts)
  {
    hide Name, Walk, Depth;
    if NeverClimbs(parts) {
      forall k | 0 <= k <= |parts| ensures base <= Walk(base, parts[..k]) {
        DepthIsLength(base, parts, k);
      }
    } else {
      var k := FirstClimb(parts);
      DepthIsLength(base, parts, k);
      WalkOn(base, parts, k);
      assert |Walk(base, parts[..k + 1])| < |base|;
    }
  }

  /** Steps that end inside the directory they start from. */
  predicate EndsInside(base: Place, parts: seq<string>) { base <= Walk(base, parts) }

  /** A name that no part is. */
  lemma {:induction false} FreshName(parts: seq<string>) returns (name: string)
    ensures Name(name) && |name| >= 3 && forall i :: 0 <= i < |parts| ==> |parts[i]| < |name|
    decreases |parts|
  {
    if parts == [] {
      name := "new";
    } else {
      name := FreshName(parts[1..]);
      name := name + parts[0] + "x";
    }
  }

  lemma {:induction false} NeverBack(at: Place, parts: seq<string>, i: nat, k: nat, name: string)
    requires i <= k <= |parts| && name !in Walk(at, parts[..i]) && name !in parts
    ensures name !in Walk(at, parts[..k])
    decreases k
  {
    hide Walk, Name;
    if i < k {
      NeverBack(at, parts, i, k - 1, name);
      WalkOn(at, parts, k - 1);
    }
  }

  lemma DepthsOf(parts: seq<string>)
    requires NeverClimbs(parts)
    ensures forall k :: 0 <= k <= |parts| ==> Depth(parts[..k]) >= 0
  {
  }

  /** The file itself is inside the mount's directory, whatever that is called, under the same condition. */
  lemma TargetStaysInside(parts: seq<string>)
    ensures (forall base: Place :: EndsInside(base, parts)) <==> NeverClimbs(parts)
  {
    hide Name, Walk, Depth, NeverClimbs;
    assert parts[..|parts|] == parts;
    if NeverClimbs(parts) {
      assert forall k :: 0 <= k <= |parts| ==> Depth(parts[..k]) >= 0 by { DepthsOf(parts); }
      forall base: Place ensures EndsInside(base, parts) {
        DepthIsLength(base, parts, |parts|);
      }
    } else {
      var k := FirstClimb(parts);
      var name := FreshName(parts);
      var base := [name];
      DepthIsLength(base, parts, k);
      WalkOn(base, parts, k);
      assert Walk(base, parts[..k]) == base && Walk(base, parts[..k + 1]) == [];
      NeverBack(base, parts, k + 1, |parts|, name);
      assert base[0] == name;
      assert !EndsInside(base, parts);
    }
  }

  // ----- The replay -----

  /** The relative path of a fact on a mount. */
  function Below(f: Fact, mount: string): string
    requires Under(f.path, mount)
  {
    Relative(f.path[|mount|..])
  }

  predicate Inside(f: Fact, mount: string) { Under(f.path, mount) ==> NeverClimbs(Parts(Below(f, mount))) }

  /** The facts change no entries but those of their own relative paths. */
  lemma {:induction false} OnlyBelow(dir: Dir, mount: string, facts: seq<Fact>, guest: Dir, i: nat,
                                     readings: nat -> nat -> ReadEnv, rel: string)
    requires forall f :: f in facts && Under(f.path, mount) ==> Below(f, mount) != rel
    ensures Look(ReplayAll(dir, mount, facts, guest, i, readings), rel) == Look(dir, rel)
    decreases |facts|
  {
    hide Under, Relative, Fetch;
    if facts != [] {
      OnlyBelow(Replay(dir, mount, facts[0], guest, readings(i)), mount, facts[1..], guest, i + 1, readings, rel);
    }
  }

  /** If no fact climbs, every entry that the replay changes leads to a file inside the mount's directory. */
  lemma ReplayStaysInside(dir: Dir, mount: string, facts: seq<Fact>, guest: Dir, i: nat,
                          readings: nat -> nat -> ReadEnv, base: Place, rel: string)
    requires forall f :: f in facts ==> Inside(f, mount)
    requires Look(ReplayAll(dir, mount, facts, guest, i, readings), rel) != Look(dir, rel)
    ensures EndsInside(base, Parts(rel))
  {
    hide Walk, Parts, ReplayAll, Under, Relative, NeverClimbs;
    if forall f :: f in facts && Under(f.path, mount) ==> Below(f, mount) != rel {
      OnlyBelow(dir, mount, facts, guest, i, readings, rel);
    }
    TargetStaysInside(Parts(rel));
  }

  /** A removal that climbs deletes outside some directory of the mount. */
  lemma ClimbingFact(dir: Dir, mount: string, rel: string, guest: Dir, reading: nat -> ReadEnv)
    requires Proper(rel) && rel in dir && !NeverClimbs(Parts(rel))
    ensures rel !in Replay(dir, mount, Fact("-", Full(mount, rel)), guest, reading)
    ensures exists base: Place :: !EndsInside(base, Parts(rel))
  {
    FullIsUnder(mount, rel);
    hide Walk, Parts, NeverClimbs;
    TargetStaysInside(Parts(rel));
  }

  lemma PartsOf(head: string, tail: string)
    requires '/' !in head
    ensures Parts(head + "/" + tail) == [head] + Parts(tail)
  {
    IndexOfFirst(head, '/', tail);
    var s := head + "/" + tail;
    assert s[..|head|] == head && s[|head| + 1..] == tail;
  }

  lemma PartsOfX()
    ensures Parts("x") == ["x"] && '/' !in ".." && ".." + "/" + "x" == "../x" && ".." + "/" + "../x" == "../../x"
    ensures Name("x") && !Name("..")
  {
  }

  lemma UpAndOutParts()
    ensures Parts("../../x") == ["..", "..", "x"]
  {
    hide *;
    PartsOfX();
    PartsOf("..", "x");
    PartsOf("..", "../x");
    assert [".."] + ([".."] + ["x"]) == ["..", "..", "x"];
  }

  lemma NoSteps(at: Place)
    ensures Walk(at, []) == at && Depth([]) == 0
  {
  }

  lemma OneStep(at: Place, parts: seq<string>, part: string)
    ensures Walk(at, parts + [part]) == Go(Walk(at, parts), part)
  {
    WalkOn(at, parts + [part], |parts|);
    assert (parts + [part])[..|parts|] == parts && (parts + [part])[..|parts| + 1] == parts + [part];
  }

  lemma StartsUp(rest: seq<string>)
    ensures !NeverClimbs([".."] + rest)
  {
    var p := [".."] + rest;
    NoSteps([]);
    WalkOn([], p, 0);
    assert p[..0] == [];
    assert Depth(p[..1]) == -1;
  }

  lemma UpTwice(base: Place, x: string)
    requires Name(x) && |base| >= 2
    ensures Go(Go(Go(base, ".."), ".."), x) == base[..|base| - 2] + [x]
  {
    assert Go(base, "..") == base[..|base| - 1];
    assert base[..|base| - 1][..|base| - 2] == base[..|base| - 2];
  }

  lemma ThreeSteps(base: Place, a: string, b: string, c: string)
    ensures Walk(base, [a, b, c]) == Go(Go(Go(base, a), b), c)
  {
    hide Go;
    NoSteps(base);
    OneStep(base, [], a);
    OneStep(base, [a], b);
    OneStep(base, [a, b], c);
    hide Walk;
    assert [] + [a] == [a] && [a] + [b] == [a, b] && [a, b] + [c] == [a, b, c];
  }

  /** Two levels up from a directory and back down. */
  lemma UpAndOut(base: Place)
    requires |base| >= 2
    ensures Walk(base, Parts("../../x")) == base[..|base| - 2] + ["x"] && !NeverClimbs(Parts("../../x"))
  {
    hide *;
    PartsOfX();
    UpAndOutParts();
    ThreeSteps(base, "..", "..", "x");
    UpTwice(base, "x");
    StartsUp(["..", "x"]);
    assert [".."] + ["..", "x"] == ["..", "..", "x"];
  }

  // ----- Scanned paths -----

  /** Only names between the slashes: what a directory scan appends to its root. */
  predicate Plain(rel: string) { forall part :: part in Parts(rel) ==> Name(part) }

  lemma {:induction false} PlainWalk(at: Place, parts: seq<string>)
    requires forall part :: part in parts ==> Name(part)
    ensures Walk(at, parts) == at + parts && Depth(parts) == |parts|
    decreases |parts|
  {
    hide Name;
    if parts != [] {
      assert parts == parts[..|parts| - 1] + [parts[|parts| - 1]];
      PlainWalk(at, parts[..|parts| - 1]);
      assert parts[|parts| - 1] != ".." by { assert !Name("..") by { NotNames(); } }
    }
  }

  lemma NotNames()
    ensures !Name("..") && !Name(".") && !Name("")
  {
  }

  /** Scanned paths stay inside, and different ones lead to different files: on them, a directory is a map
      from relative paths. */
  lemma PlainTargets(base: Place, rel: string, other: string)
    requires Plain(rel) && Plain(other)
    ensures EndsInside(base, Parts(rel)) && NeverClimbs(Parts(rel))
    ensures Walk(base, Parts(rel)) == Walk(base, Parts(other)) <==> rel == other
  {
    hide Name, Walk, Depth, Parts, Slashed;
    PlainWalk(base, Parts(rel));
    PlainWalk(base, Parts(other));
    forall k | 0 <= k <= |Parts(rel)| ensures Depth(Parts(rel)[..k]) >= 0 {
      PlainWalk(base, Parts(rel)[..k]);
    }
    SlashedParts(rel);
    SlashedParts(other);
    if base + Parts(rel) == base + Parts(other) {
      assert (base + Parts(rel))[|base|..] == Parts(rel) && (base + Parts(other))[|base|..] == Parts(other);
    }
  }

  lemma {:induction false} PartsConcat(a: string, b: string)
    ensures Parts(a + "/" + b) == Parts(a) + Parts(b)
    decreases |a|
  {
    hide *;
    var n := IndexOf(a, '/');
    if n == |a| {
      assert a[..n] == a;
      PartsOf(a, b);
      OnePart(a);
    } else {
      SplitAt(a, n);
      PartsConcat(a[n + 1..], b);
      PartsGlue(a[..n], a[n + 1..], b);
    }
  }

  lemma OnePart(a: string)
    requires IndexOf(a, '/') == |a|
    ensures Parts(a) == [a]
  {
  }

  lemma PartsGlue(head: string, rest: string, b: string)
    requires '/' !in head && Parts(rest + "/" + b) == Parts(rest) + Parts(b)
    ensures Parts(head + "/" + rest + "/" + b) == Parts(head + "/" + rest) + Parts(b)
  {
    hide *;
    PartsOf(head, rest);
    PartsOf(head, rest + "/" + b);
    assert head + "/" + rest + "/" + b == head + "/" + (rest + "/" + b);
    assert [head] + (Parts(rest) + Parts(b)) == ([head] + Parts(rest)) + Parts(b);
  }

  /** An absolute path with only names behind its first slash: what a directory scan records. */
  predicate Scanned(path: string) { path != "" && path[0] == '/' && Plain(path[1..]) }

  lemma PartsOfScanned(path: string)
    requires Scanned(path)
    ensures |Parts(path)| > 1 && forall part :: part in Parts(path)[1..] ==> Name(part)
  {
    PartsConcat("", path[1..]);
    assert "" + "/" + path[1..] == path && Parts("") == [""];
    assert ([""] + Parts(path[1..]))[1..] == Parts(path[1..]);
  }

  /** The relative path of a scanned path on a mount that contains it has only names. */
  lemma ScannedBelow(path: string, mount: string)
    requires Scanned(path) && mount + "/" <= path
    ensures var rel := path[|mount| + 1..];
            Plain(rel) && Proper(rel) && Relative(path[|mount|..]) == rel
  {
    hide Parts, Name;
    var rel := path[|mount| + 1..];
    PartsOfScanned(path);
    PartsConcat(mount, rel);
    assert mount + "/" + rel == path;
    assert forall part :: part in Parts(rel) ==> part in Parts(path)[1..] by {
      assert Parts(path)[|Parts(mount)|..] == Parts(rel);
    }
    StartsProper(rel);
    assert path[|mount|..] == "/" + rel;
    FullIsUnder(mount, rel);
  }

  lemma StartsProper(rel: string)
    requires Plain(rel)
    ensures Proper(rel)
  {
    assert Parts(rel)[0] in Parts(rel);
  }

  /** A fact on a scanned path never climbs, and its path is one that the laws of replay are about. */
  lemma ScannedStaysInside(f: Fact, mount: string)
    requires Scanned(f.path)
    ensures Inside(f, mount) && (f.path != mount ==> Normal(f.path, mount))
  {
    if Under(f.path, mount) {
      if f.path == mount {
        assert f.path[|mount|..] == "" && Parts("") == [""];
        assert forall k :: 0 <= k <= 1 ==> [""][..k] == if k == 0 then [] else [""];
      } else {
        ScannedBelow(f.path, mount);
        hide Parts, NeverClimbs, Relative;
        PlainTargets([], f.path[|mount| + 1..], f.path[|mount| + 1..]);
      }
    }
  }
}
