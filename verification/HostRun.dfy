/** From a command in the guest to the host's directories: the diff that `include/axiom/diff.hpp` prints, as
    `sync_mounts_from_guest` of `host/axiom/vm.py` replays it. */
module HostRun {
  import opened Search
  import opened Diff
  import opened Bytes
  import opened DecimalText
  import opened FileTransfer
  import opened HostSync

  /** The guest has the files, under names that a request can carry. */
  ghost predicate Holds(files: Files, encode: string -> seq<byte>, after: Dir) {
    forall path :: path in after ==>
      && 0 < |encode(path)| < 4096 && Exists(files, encode(path))
      && files[CString(encode(path))] == after[path]
  }

  /** The lines of the diff that reach the host. */
  function Printed(pre: seq<FileRecord>, post: seq<FileRecord>, cap: nat): seq<Line> {
    Kept(DiffLines(pre, post), 0, cap)
  }

  /** What the host asks for is among the files after the command. */
  lemma PrintedAreServed(pre: seq<FileRecord>, post: seq<FileRecord>, after: Dir, cap: nat, files: Files,
                         encode: string -> seq<byte>)
    requires UniquePaths(pre) && Describes(post, after) && Holds(files, encode, after)
    requires Facts(PrintAll(Printed(pre, post, cap))) == ToFacts(Printed(pre, post, cap))
    ensures Serves(files, encode, after, Facts(PrintAll(Printed(pre, post, cap))))
  {
    hide Facts, PrintAll, DiffLines, Kept, CString;
    var kept := Printed(pre, post, cap);
    ToFactsAt(kept);
    KeptIsSelection(DiffLines(pre, post), 0, cap);
    forall f | f in ToFacts(kept) && Fetches(f) ensures ServesAt(files, encode, after, f.path) {
      var j :| 0 <= j < |kept| && ToFacts(kept)[j] == f;
      assert kept[j] in kept;
      DiffLinesAreTrue(pre, post, kept[j]);
      assert f.path in after;
    }
  }

  /** What holds of a host directory after the replay. */
  ghost predicate Replayed(d: Dir, mount: string, pre: seq<FileRecord>, post: seq<FileRecord>, cap: nat, before: Dir,
                           after: Dir, readings: nat -> nat -> ReadEnv) {
    && (NothingElse(d, mount, before, after) <==>
        AllHarmless(Printed(pre, post, cap), mount, before, after, readings))
    && (|PrintAll(DiffLines(pre, post))| < cap ==>
         (Mirrors(d, mount, after) <==> AllEffective(DiffLines(pre, post), mount, before, after, readings)))
  }

  lemma ReplayedIs(pre: seq<FileRecord>, post: seq<FileRecord>, before: Dir, after: Dir, dir: Dir, mount: string,
                   cap: nat, readings: nat -> nat -> ReadEnv)
    requires CommandRun(pre, post, before, after, dir, mount)
    ensures Replayed(ReplayAll(dir, mount, Facts(PrintAll(Printed(pre, post, cap))), after, 0, readings), mount,
                     pre, post, cap, before, after, readings)
  {
    hide ReplayAll, DiffLines, Kept, PrintAll, Facts, CommandRun, AllHarmless, AllEffective, NothingElse, Mirrors;
    NoThirdState(pre, post, before, after, dir, mount, cap, readings);
    if |PrintAll(DiffLines(pre, post))| < cap {
      DiffReplay(pre, post, before, after, dir, mount, cap, readings);
    }
  }

  /** What the replay needs: the text is parsed back into the printed lines, and their files are served. */
  lemma ReadyToReplay(pre: seq<FileRecord>, post: seq<FileRecord>, before: Dir, after: Dir, dir: Dir, mount: string,
                      cap: nat, files: Files, encode: string -> seq<byte>)
    requires CommandRun(pre, post, before, after, dir, mount) && Holds(files, encode, after)
    ensures Facts(PrintAll(Printed(pre, post, cap))) == ToFacts(Printed(pre, post, cap))
    ensures Serves(files, encode, after, Facts(PrintAll(Printed(pre, post, cap))))
  {
    hide DiffLines, Kept, PrintAll, Facts, Normal, Serves, Mirrors, Holds, StampsTell;
    KeptReplays(pre, post, before, after, dir, mount, cap);
    PrintedAreServed(pre, post, after, cap, files, encode);
  }

  // ----- How many lines are carried out -----

  /** The lines below a mount, from number i on, that remove a file or whose file is not refused. */
  function CarriedOn(lines: seq<Line>, mount: string, i: nat, readings: nat -> nat -> ReadEnv): nat
    decreases lines
  {
    if lines == [] then 0
    else
      (if Under(lines[0].path, mount) && (lines[0].Removed? || !Refused(readings(i))) then 1 else 0)
      + CarriedOn(lines[1..], mount, i + 1, readings)
  }

  /** The sum over the first n mounts. */
  function Carried(mounts: seq<string>, n: nat, lines: seq<Line>, i: nat, env: nat -> nat -> nat -> ReadEnv): nat
    requires n <= |mounts|
  {
    if n == 0 then 0 else Carried(mounts, n - 1, lines, i, env) + CarriedOn(lines, mounts[n - 1], i, env(n - 1))
  }

  /** The files of lines are there, below their mounts. */
  predicate Ready(lines: seq<Line>, mounts: seq<string>, after: Dir) {
    forall l :: l in lines ==>
      (l.Removed? || l.path in after) && forall m :: 0 <= m < |mounts| ==> Normal(l.path, mounts[m])
  }

  lemma OneCounted(l: Line, mount: string, after: Dir, reading: nat -> ReadEnv)
    requires (l.Removed? || l.path in after) && Normal(l.path, mount)
    ensures Counted(mount, ToFact(l), after, reading) <==> Under(l.path, mount) && (l.Removed? || !Refused(reading))
  {
    hide Fetch, Relative, Refused;
    if Under(l.path, mount) {
      RelativeOfFull(l.path, mount);
    }
    if !l.Removed? {
      FetchFacts(after, l.path, reading, []);
    }
  }

  lemma {:induction false} FirstLineCounts(mounts: seq<string>, n: nat, lines: seq<Line>, i: nat,
                                           env: nat -> nat -> nat -> ReadEnv, after: Dir)
    requires n <= |mounts| && lines != [] && Ready(lines, mounts, after)
    ensures Carried(mounts, n, lines, i, env)
         == CountOn(mounts, n, ToFact(lines[0]), after, i, env) + Carried(mounts, n, lines[1..], i + 1, env)
    decreases n
  {
    hide Counted, Refused, Under, Normal;
    if n > 0 {
      FirstLineCounts(mounts, n - 1, lines, i, env, after);
      OneCounted(lines[0], mounts[n - 1], after, env(n - 1)(i));
    }
  }

  lemma {:induction false} NoLineCarried(mounts: seq<string>, n: nat, i: nat, env: nat -> nat -> nat -> ReadEnv)
    requires n <= |mounts|
    ensures Carried(mounts, n, [], i, env) == 0
    decreases n
  {
    if n > 0 {
      NoLineCarried(mounts, n - 1, i, env);
    }
  }

  lemma {:induction false} CountsCarried(mounts: seq<string>, lines: seq<Line>, i: nat,
                                         env: nat -> nat -> nat -> ReadEnv, after: Dir)
    requires Ready(lines, mounts, after)
    ensures CountAll(mounts, ToFacts(lines), after, i, env) == Carried(mounts, |mounts|, lines, i, env)
    decreases |lines|
  {
    hide CountOn, Normal;
    if lines == [] {
      NoLineCarried(mounts, |mounts|, i, env);
    } else {
      assert lines[0] in lines && forall l :: l in lines[1..] ==> l in lines;
      CountsCarried(mounts, lines[1..], i + 1, env, after);
      FirstLineCounts(mounts, |mounts|, lines, i, env, after);
      assert ToFacts(lines)[1..] == ToFacts(lines[1..]);
    }
  }

  lemma NoMounts(mounts: seq<string>, lines: seq<Line>, i: nat, env: nat -> nat -> nat -> ReadEnv)
    ensures Carried(mounts, 0, lines, i, env) == 0
  {
  }

  lemma PrintedIs(pre: seq<FileRecord>, post: seq<FileRecord>, cap: nat)
    ensures Printed(pre, post, cap) == Kept(DiffLines(pre, post), 0, cap)
  {
  }

  lemma PrintedAreReady(pre: seq<FileRecord>, post: seq<FileRecord>, before: Dir, after: Dir, cap: nat,
                        mounts: seq<string>, dirs: seq<Dir>)
    requires |dirs| == |mounts| > 0
    requires forall m :: 0 <= m < |mounts| ==> CommandRun(pre, post, before, after, dirs[m], mounts[m])
    ensures Ready(Printed(pre, post, cap), mounts, after)
  {
    hide DiffLines, Kept, Normal, Mirrors, StampsTell;
    var kept := Printed(pre, post, cap);
    KeptIsSelection(DiffLines(pre, post), 0, cap);
    assert CommandRun(pre, post, before, after, dirs[0], mounts[0]);
    forall l | l in kept
      ensures l.Removed? || l.path in after
      ensures forall m :: 0 <= m < |mounts| ==> Normal(l.path, mounts[m])
    {
      DiffLinesAreTrue(pre, post, l);
      LinePaths(pre, post, l);
      forall m | 0 <= m < |mounts| ensures Normal(l.path, mounts[m]) {
        assert CommandRun(pre, post, before, after, dirs[m], mounts[m]);
      }
    }
  }

  /** A command changed the guest's files from `before` to `after`; its diff goes into a buffer of some size,
      and the host replays that. Exactly under the stated conditions, every mount's directory then has each
      file as it was before or as it is after the command, or mirrors the files after it. */
  method SyncAfterCommand(host: Host, pre: seq<FileRecord>, post: seq<FileRecord>, diff: array<char>, server: Guest,
                          ghost before: Dir, ghost after: Dir, link: Link)
    returns (total: nat)
    requires host.Valid() && link.Possible() && Holds(server.files, link.encode, after)
    requires forall m :: 0 <= m < |host.mounts| ==>
               CommandRun(pre, post, before, after, host.dirs[m], host.mounts[m])
    modifies host, diff
    ensures host.Valid()
    ensures total == Carried(host.mounts, |host.mounts|, Printed(pre, post, diff.Length), 0, link.env)
    ensures forall m :: 0 <= m < |host.mounts| ==>
              && host.dirs[m] == ReplayAll(old(host.dirs)[m], host.mounts[m], ToFacts(Printed(pre, post, diff.Length)),
                                           after, 0, link.env(m))
              && Replayed(host.dirs[m], host.mounts[m], pre, post, diff.Length, before, after, link.env(m))
  {
    hide Ready, Carried, CommandRun, Printed, ToFacts;
    hide Kept, DiffLines, PrintAll, Facts, Holds, Serves, ReplayAll, CountAll, Replayed;
    PrintedIs(pre, post, diff.Length);
    ghost var cap, dirs := diff.Length, host.dirs;
    var n := ComputeDiff(pre, post, diff);
    if |host.mounts| == 0 {
      NoMounts(host.mounts, Printed(pre, post, cap), 0, link.env);
      return 0;
    }
    PrintedAreReady(pre, post, before, after, cap, host.mounts, dirs);
    CountsCarried(host.mounts, Printed(pre, post, cap), 0, link.env, after);
    ReadyToReplay(pre, post, before, after, dirs[0], host.mounts[0], cap, server.files, link.encode);
    total := host.SyncMountsFromGuest(diff[..n], server, after, link);
    forall m | 0 <= m < |host.mounts|
      ensures Replayed(host.dirs[m], host.mounts[m], pre, post, cap, before, after, link.env(m))
    {
      ReplayedIs(pre, post, before, after, dirs[m], host.mounts[m], cap, link.env(m));
    }
  }

  // ----- A run with a third state -----

  const FILE: string := "/w/a"

  function Was(old_: seq<byte>): FileRecord { FileRecord(FILE, |old_|, 1, 0) }

  function Is(new_: seq<byte>): FileRecord { FileRecord(FILE, |new_|, 2, 0) }

  lemma OneFileRun(old_: seq<byte>, new_: seq<byte>)
    ensures CommandRun([Was(old_)], [Is(new_)], map[FILE := old_], map[FILE := new_], map["a" := old_], "/w")
  {
    assert FILE == Full("/w", "a");
    forall rel | Proper(rel) ensures Agrees(map["a" := old_], "/w", rel, map[FILE := old_]) {
      assert Full("/w", rel)[3..] == rel;
    }
  }

  lemma OneFileLine(old_: seq<byte>, new_: seq<byte>, cap: nat)
    requires |Diff.Print(Modified(FILE, |old_|, |new_|))| < cap
    ensures Printed([Was(old_)], [Is(new_)], cap) == [Modified(FILE, |old_|, |new_|)]
  {
    hide Diff.Print;
    var pre, post, l := [Was(old_)], [Is(new_)], Modified(FILE, |old_|, |new_|);
    assert Lookup(pre, FILE) == Some(pre[0]) && Lookup(post, FILE) == Some(post[0]);
    assert Changes(pre, post) == LineOf(pre, post[0]) + Changes(pre, post[1..]) == [l];
    assert Removals(pre, post) == Removals(pre[1..], post) == [];
    assert Kept([l], 0, cap) == [l] + Kept([l][1..], 0 + |Diff.Print(l)|, cap);
  }

  lemma OneFileReplay(old_: seq<byte>, new_: seq<byte>, readings: nat -> nat -> ReadEnv)
    requires |new_| == 4 * WORK_BUFFER
    requires readings(0)(0) == Opens(true, 0, WORK_BUFFER) && readings(0)(1) == CannotOpen(EMFILE)
    ensures ReplayAll(map["a" := old_], "/w", ToFacts([Modified(FILE, |old_|, |new_|)]), map[FILE := new_], 0, readings)
         == map["a" := new_[..WORK_BUFFER]]
  {
    var l, guest := Modified(FILE, |old_|, |new_|), map[FILE := new_];
    var f := Fact("M", FILE);
    hide Diff.Print, FetchContent, Decimal;
    assert ToFacts([l]) == [f] + ToFacts([l][1..]) == [f];
    assert FILE == Full("/w", "a");
    FullIsUnder("/w", "a");
    SecondRequestFails(new_, readings(0));
    assert Replay(map["a" := old_], "/w", f, guest, readings(0)) == map["a" := new_[..WORK_BUFFER]];
  }

  lemma QuarterIsNeither(old_: seq<byte>, new_: seq<byte>)
    requires |new_| == 4 * WORK_BUFFER && |old_| != WORK_BUFFER
    ensures !NothingElse(map["a" := new_[..WORK_BUFFER]], "/w", map[FILE := old_], map[FILE := new_])
  {
    assert FILE == Full("/w", "a") && Proper("a");
    assert |new_[..WORK_BUFFER]| == WORK_BUFFER;
  }

  /** A file of 1 MiB replaces another one, and the second request for it fails: the synchronization leaves
      the first quarter of the new file on the host, which is neither of the two. */
  method TruncatedRun(old_: seq<byte>, new_: seq<byte>, diff: array<char>, server: Guest, link: Link)
    returns (left: Dir)
    requires |new_| == 4 * WORK_BUFFER && |old_| != WORK_BUFFER
    requires |Diff.Print(Modified(FILE, |old_|, |new_|))| < diff.Length
    requires link.Possible() && Holds(server.files, link.encode, map[FILE := new_])
    requires link.env(0)(0)(0) == Opens(true, 0, WORK_BUFFER) && link.env(0)(0)(1) == CannotOpen(EMFILE)
    modifies diff
    ensures left == map["a" := new_[..WORK_BUFFER]]
    ensures !NothingElse(left, "/w", map[FILE := old_], map[FILE := new_])
  {
    OneFileRun(old_, new_);
    OneFileLine(old_, new_, diff.Length);
    OneFileReplay(old_, new_, link.env(0));
    QuarterIsNeither(old_, new_);
    hide CommandRun, Printed, ReplayAll, Holds, Replayed, CountAll, NothingElse, ToFacts;
    var host := new Host(["/w"], [map["a" := old_]]);
    var total := SyncAfterCommand(host, [Was(old_)], [Is(new_)], diff, server, map[FILE := old_], map[FILE := new_],
                                  link);
    left := host.dirs[0];
  }
}
