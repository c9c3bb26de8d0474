/** How `include/axiom/process.hpp` turns what a child process writes into an exec response:
    pipe reads fill the ring buffer, which is linearized and filtered at the end. */
module Exec {
  import opened Bytes
  import opened RingBuffers
  import opened Ansi
  import opened Search
  import Diff

  const RING_BUFFER_CAPACITY: nat := 65536
  const PIPE_CHUNK: nat := 1024

  /** The bytes of a list of reads. */
  function Joined(chunks: seq<seq<byte>>): seq<byte>
    decreases chunks
  {
    if chunks == [] then [] else chunks[0] + Joined(chunks[1..])
  }

  lemma JoinedStep(before: seq<byte>, chunks: seq<seq<byte>>, n: nat)
    requires n < |chunks|
    ensures before + Joined(chunks[n..]) == (before + chunks[n]) + Joined(chunks[n + 1..])
  {
    assert chunks[n..][0] == chunks[n] && chunks[n..][1..] == chunks[n + 1..];
  }

  /** The bytes of a list of drains. */
  function AllOutput(drains: seq<seq<seq<byte>>>): seq<byte>
    decreases drains
  {
    if drains == [] then [] else Joined(drains[0]) + AllOutput(drains[1..])
  }

  lemma OutputStep(before: seq<byte>, drains: seq<seq<seq<byte>>>, i: nat)
    requires i < |drains|
    ensures before + AllOutput(drains[i..]) == (before + Joined(drains[i])) + AllOutput(drains[i + 1..])
  {
    assert drains[i..][0] == drains[i] && drains[i..][1..] == drains[i + 1..];
  }

  datatype ExecResult =
    ExecResult(exitCode: int, truncated: bool, timedOut: bool, cpuCycles: nat, outputLen: nat, diffLen: nat)

  /** What happens to the child: it cannot be started or waited for, or it runs. */
  datatype Child =
    | NotSpawned
    | NotMonitored
    | Ran(drains: seq<seq<seq<byte>>>, timedOut: bool, exitCode: int, startCycles: nat, endCycles: nat)
  {
    predicate Possible() {
      Ran? ==> forall i, j :: 0 <= i < |drains| && 0 <= j < |drains[i]| ==> 0 < |drains[i][j]| <= PIPE_CHUNK
    }
  }

  datatype RunError = ProcessSpawnError | ReactorError
  datatype RunResult = Completed(result: ExecResult) | Failed(error: RunError)

  /** The size of the server's destination for output. */
  const SERVER_OUTPUT: nat := RING_BUFFER_CAPACITY

  class ProcessRunner {
    const ring: RingBuffer
    const filter: AnsiFilter

    ghost predicate Valid()
      reads this, ring, ring.storage
    {
      ring.Valid() && ring.storage.Length == RING_BUFFER_CAPACITY
    }

    constructor ()
      ensures Valid() && fresh(ring) && fresh(ring.storage) && fresh(filter)
    {
      ring := new RingBuffer(RING_BUFFER_CAPACITY);
      filter := new AnsiFilter();
    }

    /** Reads until the pipe has nothing more; `chunks` are the reads that returned bytes. */
    method DrainPipe(chunks: seq<seq<byte>>)
      requires Valid() && forall i :: 0 <= i < |chunks| ==> 0 < |chunks[i]| <= PIPE_CHUNK
      modifies ring, ring.storage
      ensures Valid() && ring.history == old(ring.history) + Joined(chunks)
    {
      var n := 0;
      while n < |chunks|
        invariant Valid() && n <= |chunks|
        invariant ring.history + Joined(chunks[n..]) == old(ring.history) + Joined(chunks)
      {
        JoinedStep(ring.history, chunks, n);
        var _ := ring.Write(chunks[n]);
        n := n + 1;
      }
      assert ring.history + [] == ring.history;
    }

    /** Assembles the response output from what the ring holds. */
    method Assemble(strip: bool, dest: array<byte>) returns (outputLen: nat)
      requires Valid() && dest != ring.storage && filter.state == Ground
      modifies filter, dest
      ensures Valid() && outputLen <= dest.Length && ring.history == old(ring.history)
      ensures dest[..outputLen] == Take(Response(ring.history, strip), dest.Length)
    {
      ghost var last := LastN(ring.history, RING_BUFFER_CAPACITY);
      if strip {
        var rawLinear := new byte[RING_BUFFER_CAPACITY];
        var rawLen := ring.Linearize(rawLinear);
        assert rawLinear[..rawLen] == last;
        outputLen := filter.Filter(rawLinear[..rawLen], dest);
      } else {
        outputLen := ring.Linearize(dest);
        assert last[..outputLen] == Take(last, dest.Length);
      }
    }

    /** The reads of the pipe, event by event. */
    method Collect(drains: seq<seq<seq<byte>>>)
      requires Valid() && filter.state == Ground && ring.history == []
      requires forall i, j :: 0 <= i < |drains| && 0 <= j < |drains[i]| ==> 0 < |drains[i][j]| <= PIPE_CHUNK
      modifies ring, ring.storage
      ensures Valid() && ring.history == AllOutput(drains)
    {
      for i := 0 to |drains|
        invariant Valid() && ring.history + AllOutput(drains[i..]) == AllOutput(drains)
      {
        OutputStep(ring.history, drains, i);
        DrainPipe(drains[i]);
      }
      assert ring.history + [] == ring.history;
    }

    /** A whole run: whatever the child's output is cut into, the response holds the last 65536 bytes of
        it, filtered when the request asks for that, says truthfully whether something was dropped, and
        loses nothing to the server's destination; the diff buffer holds the lines of the diff that fit;
        exit code, timeout and cycles are the child's. `post` is None when its capture failed. */
    method Run(child: Child, strip: bool, captureDiff: bool, pre: seq<Diff.FileRecord>,
               post: Option<seq<Diff.FileRecord>>, dest: array<byte>, diffDest: array<char>) returns (r: RunResult)
      requires Valid() && dest != ring.storage && child.Possible()
      modifies ring, ring.storage, filter, dest, diffDest
      ensures Valid()
      ensures match child
              case NotSpawned => r == Failed(ProcessSpawnError)
              case NotMonitored => r == Failed(ReactorError)
              case Ran(drains, timedOut, exitCode, startCycles, endCycles) =>
                && r.Completed? && r.result.outputLen <= dest.Length && r.result.diffLen <= diffDest.Length
                && dest[..r.result.outputLen] == Take(Response(AllOutput(drains), strip), dest.Length)
                && (dest.Length == SERVER_OUTPUT ==>
                     dest[..r.result.outputLen] == Response(AllOutput(drains), strip))
                && (r.result.truncated <==> |AllOutput(drains)| > RING_BUFFER_CAPACITY)
                && r.result.timedOut == timedOut && r.result.exitCode == exitCode
                && r.result.cpuCycles == (if endCycles >= startCycles then endCycles - startCycles else 0)
                && diffDest[..r.result.diffLen]
                == if captureDiff && post.Some?
                   then Diff.PrintAll(Diff.Kept(Diff.DiffLines(pre, post.value), 0, diffDest.Length))
                   else ""
    {
      hide Holds, Response;
      ring.Clear();
      filter.Reset();
      match child {
        case NotSpawned => return Failed(ProcessSpawnError);
        case NotMonitored => return Failed(ReactorError);
        case Ran(drains, timedOut, exitCode, startCycles, endCycles) =>
          Collect(drains);
          var cycles := if endCycles >= startCycles then endCycles - startCycles else 0;
          ring.Accounting();
          var truncated := ring.IsTruncated();
          var outputLen := Assemble(strip, dest);
          ServerLosesNothing(AllOutput(drains), strip);
          var diffLen := 0;
          if captureDiff && post.Some? {
            diffLen := Diff.ComputeDiff(pre, post.value, diffDest);
          }
          return Completed(ExecResult(exitCode, truncated, timedOut, cycles, outputLen, diffLen));
      }
    }
  }

  /** The output of a response when there is room for all of it. */
  function Response(all: seq<byte>, strip: bool): (out: seq<byte>)
    ensures |out| <= RING_BUFFER_CAPACITY
  {
    var last := LastN(all, RING_BUFFER_CAPACITY);
    if strip then Strip(last) else last
  }

  /** The server's destination always has room, so nothing is cut off at the end. */
  lemma ServerLosesNothing(all: seq<byte>, strip: bool)
    ensures Take(Response(all, strip), SERVER_OUTPUT) == Response(all, strip)
  {
  }

  /** An untruncated response is the filtered output. A truncated one is the end of it, whatever
      the kept bytes are, exactly when the cut falls between escape sequences. */
  lemma FilteredResponse(dropped: seq<byte>)
    ensures forall all :: |all| <= RING_BUFFER_CAPACITY ==> Response(all, true) == Strip(all)
    ensures EndState(Ground, dropped) == Ground <==>
            forall kept: seq<byte> :: |kept| == RING_BUFFER_CAPACITY ==>
              Strip(dropped + kept) == Strip(dropped) + Response(dropped + kept, true)
  {
    forall kept: seq<byte> | |kept| == RING_BUFFER_CAPACITY
      ensures Response(dropped + kept, true) == Strip(kept)
      ensures EndState(Ground, dropped) == Ground ==>
              Strip(dropped + kept) == Strip(dropped) + Response(dropped + kept, true)
    {
      assert LastN(dropped + kept, RING_BUFFER_CAPACITY) == kept;
      Incremental(Ground, dropped, kept);
    }
    if EndState(Ground, dropped) != Ground {
      CutInsideSequence(dropped, seq(RING_BUFFER_CAPACITY, _ => 'A' as int));
    }
  }

  /** A cut inside a sequence shows up as text that the sequence would have swallowed. */
  lemma CutInsideSequence(dropped: seq<byte>, kept: seq<byte>)
    requires EndState(Ground, dropped) != Ground && AllVisible(kept) && kept != []
    ensures Strip(dropped + kept) != Strip(dropped) + Strip(kept)
  {
    Incremental(Ground, dropped, kept);
    StripFixpoint(kept);
    assert |Through(EndState(Ground, dropped), kept)| < |kept|;
  }

  /** The cut right behind an escape character: the first kept byte, which the sequence would have taken
      as its last, comes back as text. */
  lemma CutBehindEscape(kept: seq<byte>)
    requires |kept| == RING_BUFFER_CAPACITY && AllVisible(kept)
    ensures Strip([ESC] + kept) != Strip([ESC]) + Response([ESC] + kept, true)
    ensures Response([ESC] + kept, true) == kept
  {
    assert [ESC][1..] == [] && EndState(Ground, [ESC]) == EndState(Escape, []) == Escape;
    CutInsideSequence([ESC], kept);
    StripFixpoint(kept);
    assert LastN([ESC] + kept, RING_BUFFER_CAPACITY) == kept;
  }

  /** Terminal output that fits the ring comes back as exactly its text. */
  lemma TextComesBack(ts: seq<Token>)
    requires forall i :: 0 <= i < |ts| ==> ts[i].WellFormed()
    requires |RenderAll(ts)| <= RING_BUFFER_CAPACITY
    ensures Response(RenderAll(ts), true) == TextOfAll(ts)
  {
    StripUndoesRender(ts);
  }

  /** When more is written, what comes back is the text of the tokens that the ring kept whole,
      provided the oldest kept byte starts a token. */
  lemma TextOfTail(older: seq<Token>, kept: seq<Token>)
    requires forall i :: 0 <= i < |kept| ==> kept[i].WellFormed()
    requires |RenderAll(kept)| == RING_BUFFER_CAPACITY
    ensures Response(RenderAll(older) + RenderAll(kept), true) == TextOfAll(kept)
  {
    var a, b := RenderAll(older), RenderAll(kept);
    assert LastN(a + b, RING_BUFFER_CAPACITY) == b;
    StripUndoesRender(kept);
  }
}
