/** What a run of the server of `include/axiom/server.hpp` is, told by its events alone: which connections
    live, what they have received and which frames were dispatched. */
module Sessions {
  import opened Bytes
  import opened Wire
  import opened Framing
  import opened Search

  const MAX_CLIENTS: nat := 4

  /** What one epoll event brings for a client: nothing to read, a failed or empty read, or bytes. */
  datatype Input = NoInput | ReadFailed | Read(chunk: seq<byte>) {
    predicate Possible() { Read? ==> 1 <= |chunk| <= MAX_CHUNK }

    function Bytes(): seq<byte> { if Read? then chunk else [] }
  }

  datatype Event =
    | Signal(stop: bool)
    | Incoming(accepted: bool, addOk: bool)
    | Client(fd: int, input: Input, hangup: bool)
  {
    predicate Possible() { Client? ==> fd >= 0 && input.Possible() }
  }

  datatype WaitResult = WaitError | Events(events: seq<Event>)

  datatype RunResult = Stopped | WaitFailed | StillRunning

  /** An event that was handled, with the descriptor that it admitted, or -1, and the number of frames
      dispatched before it; or the cleanup. */
  datatype Step = Handled(event: Event, admitted: int, at: nat) | CleanedUp

  /** An event that brings input for a descriptor. */
  predicate For(st: Step, fd: int) { st.Handled? && st.event.Client? && st.event.fd == fd }

  // ----- One connection -----

  /** The steps for a descriptor since it was last admitted. */
  function Since(trace: seq<Step>, fd: int): (r: Option<seq<Step>>)
    ensures r.Some? ==> forall i :: 0 <= i < |r.value| ==> For(r.value[i], fd)
    decreases |trace|
  {
    if trace == [] then None
    else
      var st, before := trace[|trace| - 1], Since(trace[..|trace| - 1], fd);
      if st.CleanedUp? then None
      else if fd >= 0 && st.admitted == fd then Some([])
      else if before.Some? && For(st, fd) then Some(before.value + [st])
      else before
  }

  predicate AllFor(es: seq<Step>) { forall i :: 0 <= i < |es| ==> es[i].Handled? && es[i].event.Client? }

  /** All bytes that steps have brought. */
  function Received(es: seq<Step>): seq<byte>
    requires AllFor(es)
    decreases |es|
  {
    if es == [] then [] else Received(es[..|es| - 1]) + es[|es| - 1].event.input.Bytes()
  }

  /** All bytes that have come for a descriptor since it was last admitted. */
  function Heard(trace: seq<Step>, fd: int): seq<byte> {
    if Since(trace, fd).Some? then Received(Since(trace, fd).value) else []
  }

  /** The frames that a chunk completes. */
  function News(before: seq<byte>, chunk: seq<byte>): seq<Frame> {
    Parse(Parse(before).rest + chunk).frames
  }

  predicate Fits(before: seq<byte>, chunk: seq<byte>) { |Parse(before).rest| + |chunk| <= BUFFER_CAPACITY }

  /** The responses to frames that are dispatched from number k on can be written. */
  predicate Written(frames: seq<Frame>, k: nat, ok: nat -> bool) {
    forall i :: 0 <= i < |frames| ==> Answered(frames[i]) ==> ok(k + i)
  }

  /** A step that leaves a connection open: no hangup, no failed read, and what was read fits the buffer,
      shows no bad header, and its frames are answered. */
  predicate Keeps(before: seq<byte>, st: Step, ok: nat -> bool)
    requires st.Handled? && st.event.Client?
  {
    && !st.event.hangup
    && !st.event.input.ReadFailed?
    && (st.event.input.Read? ==>
          var chunk := st.event.input.chunk;
          && Fits(before, chunk)
          && !Parse(before + chunk).bad
          && Written(News(before, chunk), st.at, ok))
  }

  predicate AllKeep(es: seq<Step>, ok: nat -> bool)
    requires AllFor(es)
  {
    forall i :: 0 <= i < |es| ==> Keeps(Received(es[..i]), es[i], ok)
  }

  /** A descriptor that was admitted, and whose connection nothing has ended since. */
  predicate Alive(trace: seq<Step>, fd: int, ok: nat -> bool) {
    Since(trace, fd).Some? && AllKeep(Since(trace, fd).value, ok)
  }

  // ----- All connections -----

  /** The frames that are dispatched, of those that a chunk completes: up to the first whose response cannot be
      written. */
  function UpToFailure(frames: seq<Frame>, k: nat, ok: nat -> bool): seq<Frame>
    decreases frames
  {
    if frames == [] then []
    else [frames[0]] + if Closes(frames[0], ok(k)) then [] else UpToFailure(frames[1..], k + 1, ok)
  }

  /** What a step dispatches, behind a trace. */
  function DispatchedBy(before: seq<Step>, st: Step, ok: nat -> bool): seq<Frame> {
    if st.Handled? && st.event.Client? && st.event.input.Read? && Alive(before, st.event.fd, ok) then
      var had, chunk := Heard(before, st.event.fd), st.event.input.chunk;
      if Fits(had, chunk) then UpToFailure(News(had, chunk), st.at, ok) else []
    else []
  }

  /** All dispatched frames, in order. */
  function Dispatched(trace: seq<Step>, ok: nat -> bool): seq<Frame>
    decreases |trace|
  {
    if trace == [] then []
    else
      var st, before := trace[|trace| - 1], trace[..|trace| - 1];
      Dispatched(before, ok) + DispatchedBy(before, st, ok)
  }

  /** All descriptors ever admitted. */
  function Admitted(trace: seq<Step>): (s: set<int>)
    ensures forall i :: 0 <= i < |trace| && trace[i].Handled? && trace[i].admitted >= 0 ==> trace[i].admitted in s
    decreases |trace|
  {
    if trace == [] then {}
    else
      var st := trace[|trace| - 1];
      Admitted(trace[..|trace| - 1]) + if st.Handled? && st.admitted >= 0 then {st.admitted} else {}
  }

  function LiveSet(trace: seq<Step>, ok: nat -> bool): set<int> {
    set fd | fd in Admitted(trace) && Alive(trace, fd, ok)
  }

  /** A descriptor is admitted, under a number not in use, exactly when it was accepted, it could be registered
      and fewer than four connections live. */
  predicate Admissible(before: seq<Step>, st: Step, ok: nat -> bool) {
    st.Handled? ==>
      && st.at == |Dispatched(before, ok)|
      && (st.admitted >= 0 <==>
          st.event.Incoming? && st.event.accepted && st.event.addOk && |LiveSet(before, ok)| < MAX_CLIENTS)
      && (st.admitted >= 0 ==> !Alive(before, st.admitted, ok))
  }

  /** No stop signal came, and no shutdown frame was dispatched. */
  predicate GoesOn(trace: seq<Step>, ok: nat -> bool) {
    && (forall i :: 0 <= i < |trace| && trace[i].Handled? && trace[i].event.Signal? ==> !trace[i].event.stop)
    && (forall f :: f in Dispatched(trace, ok) ==> f.header.opcode != OP_SHUTDOWN)
  }

  /** The state of a server, as its trace tells it: the live descriptors with all bytes that came for them since
      they were admitted, the number of dispatched frames, and whether it runs. */
  ghost predicate Story(trace: seq<Step>, streams: map<int, seq<byte>>, k: nat, running: bool, ok: nat -> bool) {
    && (forall i :: 0 <= i < |trace| ==> Admissible(trace[..i], trace[i], ok))
    && (forall fd :: fd in streams <==> Alive(trace, fd, ok))
    && (forall fd :: fd in streams ==> streams[fd] == Heard(trace, fd))
    && k == |Dispatched(trace, ok)|
    && (running <==> GoesOn(trace, ok))
  }

  // ----- A run -----

  /** The events of answers, in order. */
  function AllEvents(waits: seq<WaitResult>): seq<Event>
    decreases |waits|
  {
    if waits == [] then []
    else
      var w := waits[|waits| - 1];
      AllEvents(waits[..|waits| - 1]) + if w.Events? then w.events else []
  }

  predicate Matches(steps: seq<Step>, events: seq<Event>) {
    && |steps| == |events|
    && forall i :: 0 <= i < |steps| ==> steps[i].Handled? && steps[i].event == events[i]
  }

  /** A run handles all events of the first n answers, and no others: up to the first failed wait, or up to the
      answer whose events stopped the server, or all. */
  ghost predicate Ran(waits: seq<WaitResult>, r: RunResult, n: nat, before: seq<Step>, steps: seq<Step>,
                      ok: nat -> bool) {
    && n <= |waits|
    && Matches(steps, AllEvents(waits[..n]))
    && WaitError !in waits[..n]
    && (r.Stopped? <==> !GoesOn(before + steps, ok))
    && match r
       case WaitFailed => n < |waits| && waits[n].WaitError?
       case StillRunning => n == |waits|
       case Stopped => n > 0 ==> StoppedLate(before, steps, |AllEvents(waits[..n - 1])|, ok)
  }

  /** The first k steps did not stop the server. */
  predicate StoppedLate(before: seq<Step>, steps: seq<Step>, k: nat, ok: nat -> bool) {
    k <= |steps| && GoesOn(before + steps[..k], ok)
  }

  lemma AllEventsStep(waits: seq<WaitResult>, n: nat)
    requires n < |waits| && waits[n].Events?
    ensures AllEvents(waits[..n + 1]) == AllEvents(waits[..n]) + waits[n].events
  {
    assert waits[..n + 1][..n] == waits[..n];
  }

  lemma NothingYet(waits: seq<WaitResult>, before: seq<Step>)
    ensures waits[..0] == [] && before + [] == before && Matches([], AllEvents(waits[..0]))
  {
  }

  /** One more answer, behind steps that did not stop the server. */
  lemma NextBatch(waits: seq<WaitResult>, n: nat, before: seq<Step>, steps: seq<Step>, more: seq<Step>, ok: nat -> bool)
    requires n < |waits| && waits[n].Events? && Matches(steps, AllEvents(waits[..n])) && GoesOn(before + steps, ok)
    requires WaitError !in waits[..n] && Matches(more, waits[n].events)
    ensures Matches(steps + more, AllEvents(waits[..n + 1])) && WaitError !in waits[..n + 1]
    ensures StoppedLate(before, steps + more, |AllEvents(waits[..n])|, ok)
    ensures before + (steps + more) == before + steps + more
  {
    hide GoesOn;
    AllEventsStep(waits, n);
    MatchesBoth(steps, AllEvents(waits[..n]), more, waits[n].events);
    assert waits[..n + 1] == waits[..n] + [waits[n]];
  }

  lemma MatchesNothing(before: seq<Step>, events: seq<Event>)
    ensures before + [] == before && Matches([], events[..0])
    ensures events[..|events|] == events
  {
  }

  lemma MatchesMore(before: seq<Step>, steps: seq<Step>, events: seq<Event>, i: nat, trace: seq<Step>)
    requires i < |events| && Matches(steps, events[..i])
    requires |trace| == |before + steps| + 1 && trace[..|before + steps|] == before + steps
    requires trace[|before + steps|].Handled? && trace[|before + steps|].event == events[i]
    ensures trace == before + (steps + [trace[|trace| - 1]])
    ensures Matches(steps + [trace[|trace| - 1]], events[..i + 1])
  {
    MatchesBoth(steps, events[..i], [trace[|trace| - 1]], [events[i]]);
    assert events[..i] + [events[i]] == events[..i + 1];
  }

  lemma MatchesBoth(a: seq<Step>, x: seq<Event>, b: seq<Step>, y: seq<Event>)
    requires Matches(a, x) && Matches(b, y)
    ensures Matches(a + b, x + y) && (a + b)[..|x|] == a
  {
  }

  // ----- One more step -----

  lemma Snoc(trace: seq<Step>, st: Step)
    ensures (trace + [st])[..|trace|] == trace && (trace + [st])[|trace|] == st
  {
  }

  lemma SinceStep(trace: seq<Step>, st: Step, fd: int)
    ensures Since(trace + [st], fd)
         == if st.CleanedUp? then None
            else if fd >= 0 && st.admitted == fd then Some([])
            else if Since(trace, fd).Some? && For(st, fd) then Some(Since(trace, fd).value + [st])
            else Since(trace, fd)
  {
    Snoc(trace, st);
  }

  lemma ReceivedStep(es: seq<Step>, st: Step)
    requires AllFor(es) && st.Handled? && st.event.Client?
    ensures AllFor(es + [st]) && Received(es + [st]) == Received(es) + st.event.input.Bytes()
  {
    Snoc(es, st);
  }

  lemma AllKeepStep(es: seq<Step>, st: Step, ok: nat -> bool)
    requires AllFor(es) && st.Handled? && st.event.Client?
    ensures AllFor(es + [st]) && (AllKeep(es + [st], ok) <==> AllKeep(es, ok) && Keeps(Received(es), st, ok))
  {
    hide Keeps, Received;
    var all := es + [st];
    assert forall i :: 0 <= i < |es| ==> es[i] == all[i] && es[..i] == all[..i];
    assert all[..|es|] == es && all[|es|] == st;
    if AllKeep(all, ok) {
      forall i | 0 <= i < |es| ensures Keeps(Received(es[..i]), es[i], ok) {
        assert Keeps(Received(all[..i]), all[i], ok);
      }
      assert Keeps(Received(all[..|es|]), all[|es|], ok);
    }
  }

  lemma DispatchedStep(trace: seq<Step>, st: Step, ok: nat -> bool)
    ensures Dispatched(trace + [st], ok) == Dispatched(trace, ok) + DispatchedBy(trace, st, ok)
  {
    Snoc(trace, st);
  }

  lemma AdmissionsStep(trace: seq<Step>, st: Step, ok: nat -> bool)
    requires forall i :: 0 <= i < |trace| ==> Admissible(trace[..i], trace[i], ok)
    requires Admissible(trace, st, ok)
    ensures var t := trace + [st]; forall i :: 0 <= i < |t| ==> Admissible(t[..i], t[i], ok)
  {
    hide Admissible;
    var t := trace + [st];
    forall i | 0 <= i < |t| ensures Admissible(t[..i], t[i], ok) {
      if i < |trace| {
        assert t[..i] == trace[..i] && t[i] == trace[i];
      } else {
        Snoc(trace, st);
      }
    }
  }

  lemma GoesOnStep(trace: seq<Step>, st: Step, ok: nat -> bool)
    ensures GoesOn(trace + [st], ok) <==>
            && GoesOn(trace, ok)
            && (st.Handled? && st.event.Signal? ==> !st.event.stop)
            && forall f :: f in DispatchedBy(trace, st, ok) ==> f.header.opcode != OP_SHUTDOWN
  {
    hide Dispatched, DispatchedBy;
    DispatchedStep(trace, st, ok);
    var t := trace + [st];
    assert forall i :: 0 <= i < |trace| ==> t[i] == trace[i];
    assert t[|trace|] == st;
    if GoesOn(t, ok) {
      assert forall i :: 0 <= i < |trace| ==> trace[i] == t[i];
      forall f | f in Dispatched(trace, ok) || f in DispatchedBy(trace, st, ok)
        ensures f.header.opcode != OP_SHUTDOWN
      {
        assert f in Dispatched(t, ok);
      }
    }
  }

  /** What a step makes of a descriptor. */
  lemma AliveStep(trace: seq<Step>, st: Step, fd: int, ok: nat -> bool)
    requires st.Handled?
    ensures var t := trace + [st];
            if fd >= 0 && st.admitted == fd then Alive(t, fd, ok) && Heard(t, fd) == []
            else if For(st, fd) then
              && (Alive(t, fd, ok) <==> Alive(trace, fd, ok) && Keeps(Heard(trace, fd), st, ok))
              && (Alive(t, fd, ok) ==> Heard(t, fd) == Heard(trace, fd) + st.event.input.Bytes())
            else Since(t, fd) == Since(trace, fd)
  {
    hide Keeps, AllKeep, Received;
    SinceStep(trace, st, fd);
    NothingKept(ok);
    if !(fd >= 0 && st.admitted == fd) && For(st, fd) && Since(trace, fd).Some? {
      AllKeepStep(Since(trace, fd).value, st, ok);
      ReceivedStep(Since(trace, fd).value, st);
    }
  }

  lemma NothingKept(ok: nat -> bool)
    ensures AllKeep([], ok) && Received([]) == []
  {
  }

  lemma {:induction false} SinceAdmitted(trace: seq<Step>, fd: int)
    requires Since(trace, fd).Some?
    ensures fd >= 0 && fd in Admitted(trace)
    decreases |trace|
  {
    var st := trace[|trace| - 1];
    if !(fd >= 0 && st.Handled? && st.admitted == fd) {
      SinceAdmitted(trace[..|trace| - 1], fd);
    }
  }

  lemma LiveIs(trace: seq<Step>, streams: map<int, seq<byte>>, k: nat, running: bool, ok: nat -> bool)
    requires Story(trace, streams, k, running, ok)
    ensures LiveSet(trace, ok) == streams.Keys && forall fd :: fd in streams ==> fd >= 0
  {
    hide AllKeep, Admitted, Admissible, Received;
    forall fd | fd in streams ensures fd >= 0 && fd in Admitted(trace) {
      SinceAdmitted(trace, fd);
    }
  }

  lemma EmptyStory(ok: nat -> bool)
    ensures Story([], map[], 0, true, ok)
  {
  }

  lemma StrayStory(trace: seq<Step>, streams: map<int, seq<byte>>, k: nat, running: bool, ok: nat -> bool, st: Step)
    requires Story(trace, streams, k, running, ok)
    requires st.Handled? && st.event.Client? && st.event.fd !in streams && st.admitted < 0 && st.at == k
    ensures Story(trace + [st], streams, k, running, ok)
  {
    ClientAdmissible(trace, st, ok);
    hide Admissible;
    IdleStory(trace, streams, k, running, ok, st);
  }

  lemma SignalStory(trace: seq<Step>, streams: map<int, seq<byte>>, k: nat, running: bool, ok: nat -> bool,
                    stop: bool)
    requires Story(trace, streams, k, running, ok)
    ensures Story(trace + [Handled(Signal(stop), -1, k)], streams, k, running && !stop, ok)
  {
    IdleStory(trace, streams, k, running, ok, Handled(Signal(stop), -1, k));
  }

  /** A step that neither admits nor reaches a live connection. */
  lemma IdleStory(trace: seq<Step>, streams: map<int, seq<byte>>, k: nat, running: bool, ok: nat -> bool, st: Step)
    requires Story(trace, streams, k, running, ok) && Admissible(trace, st, ok)
    requires st.Handled? && st.admitted < 0 && (st.event.Client? ==> st.event.fd !in streams)
    ensures Story(trace + [st], streams, k, running && !(st.event.Signal? && st.event.stop), ok)
  {
    hide Admissible, GoesOn, AllKeep, Received, Dispatched, Alive, Heard;
    AdmissionsStep(trace, st, ok);
    DispatchedStep(trace, st, ok);
    GoesOnStep(trace, st, ok);
    assert DispatchedBy(trace, st, ok) == [];
    assert Dispatched(trace, ok) + [] == Dispatched(trace, ok);
    forall fd ensures Alive(trace + [st], fd, ok) <==> Alive(trace, fd, ok)
      ensures Alive(trace, fd, ok) ==> Heard(trace + [st], fd) == Heard(trace, fd)
    {
      AliveStep(trace, st, fd, ok);
      SinceDecides(trace, trace + [st], fd, ok);
    }
  }

  lemma SinceDecides(trace: seq<Step>, t: seq<Step>, fd: int, ok: nat -> bool)
    ensures Since(t, fd) == Since(trace, fd) ==>
              Heard(t, fd) == Heard(trace, fd) && (Alive(t, fd, ok) <==> Alive(trace, fd, ok))
  {
  }

  lemma IncomingStory(trace: seq<Step>, streams: map<int, seq<byte>>, k: nat, running: bool, ok: nat -> bool,
                      accepted: bool, addOk: bool, fd: int)
    requires Story(trace, streams, k, running, ok)
    requires fd >= 0 <==> accepted && addOk && |streams.Keys| < MAX_CLIENTS
    requires fd >= 0 ==> fd !in streams
    ensures Story(trace + [Handled(Incoming(accepted, addOk), fd, k)],
                  if fd >= 0 then streams[fd := []] else streams, k, running, ok)
  {
    var st := Handled(Incoming(accepted, addOk), fd, k);
    LiveIs(trace, streams, k, running, ok);
    IncomingAdmissible(trace, streams, k, running, ok, st);
    hide *;
    if fd < 0 {
      IdleStory(trace, streams, k, running, ok, st);
    } else {
      AdmitStory(trace, streams, k, running, ok, st);
    }
  }

  lemma IncomingAdmissible(trace: seq<Step>, streams: map<int, seq<byte>>, k: nat, running: bool, ok: nat -> bool,
                           st: Step)
    requires Story(trace, streams, k, running, ok) && LiveSet(trace, ok) == streams.Keys
    requires st.Handled? && st.event.Incoming? && st.at == k
    requires st.admitted >= 0 <==> st.event.accepted && st.event.addOk && |streams.Keys| < MAX_CLIENTS
    requires st.admitted >= 0 ==> st.admitted !in streams
    ensures Admissible(trace, st, ok)
  {
    hide LiveSet, Alive, Dispatched, GoesOn;
  }

  lemma AdmitStory(trace: seq<Step>, streams: map<int, seq<byte>>, k: nat, running: bool, ok: nat -> bool, st: Step)
    requires Story(trace, streams, k, running, ok) && Admissible(trace, st, ok)
    requires st.Handled? && st.admitted >= 0 && st.event.Incoming?
    ensures Story(trace + [st], streams[st.admitted := []], k, running, ok)
  {
    hide Admissible, GoesOn, AllKeep, Received, Dispatched, Since, Heard;
    AdmissionsStep(trace, st, ok);
    DispatchedStep(trace, st, ok);
    GoesOnStep(trace, st, ok);
    assert DispatchedBy(trace, st, ok) == [];
    assert Dispatched(trace, ok) + [] == Dispatched(trace, ok);
    hide Alive;
    forall g
      ensures Alive(trace + [st], g, ok) <==> g == st.admitted || Alive(trace, g, ok)
      ensures g == st.admitted ==> Heard(trace + [st], g) == []
      ensures g != st.admitted && Alive(trace, g, ok) ==> Heard(trace + [st], g) == Heard(trace, g)
    {
      AliveStep(trace, st, g, ok);
      SinceDecides(trace, trace + [st], g, ok);
    }
  }

  lemma CleanupIsAdmissible(trace: seq<Step>, ok: nat -> bool)
    ensures Admissible(trace, CleanedUp, ok)
  {
  }

  lemma CleanedStory(trace: seq<Step>, streams: map<int, seq<byte>>, k: nat, running: bool, ok: nat -> bool)
    requires Story(trace, streams, k, running, ok)
    ensures Story(trace + [CleanedUp], map[], k, running, ok)
  {
    hide Admissible, GoesOn, AllKeep, Received, Dispatched;
    CleanupIsAdmissible(trace, ok);
    AdmissionsStep(trace, CleanedUp, ok);
    DispatchedStep(trace, CleanedUp, ok);
    GoesOnStep(trace, CleanedUp, ok);
    assert Dispatched(trace, ok) + [] == Dispatched(trace, ok);
    forall fd ensures !Alive(trace + [CleanedUp], fd, ok) {
      SinceStep(trace, CleanedUp, fd);
    }
  }

  // ----- An event of a live connection -----

  /** One client event on one connection, as a function. */
  function ClientEvent(c: Conn, input: Input, hangup: bool, k: nat, ok: nat -> bool): Outcome {
    match input
    case NoInput => Outcome([], if hangup then Closed else c)
    case ReadFailed => Outcome([], Closed)
    case Read(chunk) =>
      var r := Feed(c, chunk, k, ok);
      Outcome(r.frames, if hangup then Closed else r.conn)
  }

  predicate NoShutdown(frames: seq<Frame>) {
    frames == [] || (frames[0].header.opcode != OP_SHUTDOWN && NoShutdown(frames[1..]))
  }

  lemma {:induction false} NoShutdownIn(frames: seq<Frame>)
    ensures NoShutdown(frames) <==> forall f :: f in frames ==> f.header.opcode != OP_SHUTDOWN
    decreases |frames|
  {
    if frames != [] {
      NoShutdownIn(frames[1..]);
      assert frames == [frames[0]] + frames[1..];
    }
  }

  lemma WrittenCons(f: Frame, frames: seq<Frame>, k: nat, ok: nat -> bool)
    ensures Written([f] + frames, k, ok) <==> !Closes(f, ok(k)) && Written(frames, k + 1, ok)
  {
    hide Answered;
    var all := [f] + frames;
    assert forall i :: 0 <= i < |frames| ==> frames[i] == all[i + 1];
    if Written(all, k, ok) {
      assert all[0] == f;
      forall i | 0 <= i < |frames| ensures Answered(frames[i]) ==> ok(k + 1 + i) {
        assert Answered(all[i + 1]) ==> ok(k + (i + 1));
      }
    }
    if !Closes(f, ok(k)) && Written(frames, k + 1, ok) {
      forall i | 0 <= i < |all| ensures Answered(all[i]) ==> ok(k + i) {
        if i > 0 {
          assert Answered(frames[i - 1]) ==> ok(k + 1 + (i - 1));
        }
      }
    }
  }

  /** The frame loop dispatches up to the first failed response, and keeps the connection open exactly when
      there is none and no bad header. */
  lemma {:induction false} DrainTold(s: seq<byte>, k: nat, ok: nat -> bool)
    ensures Drain(s, k, ok).frames == UpToFailure(Parse(s).frames, k, ok)
    ensures Drain(s, k, ok).conn.Open? <==> !Parse(s).bad && Written(Parse(s).frames, k, ok)
    decreases |s|
  {
    hide Answered, Closes;
    var n := Next(s);
    if n.Whole? {
      var rest := s[FrameLen(n.frame.header)..];
      DrainTold(rest, k + 1, ok);
      WrittenCons(n.frame, Parse(rest).frames, k, ok);
      assert ([n.frame] + Parse(rest).frames)[1..] == Parse(rest).frames;
    }
  }

  /** What an event does to a connection that has received some bytes. */
  lemma EventTold(had: seq<byte>, st: Step, ok: nat -> bool)
    requires st.Handled? && st.event.Client? && !Parse(had).bad
    ensures var r := ClientEvent(Open(Parse(had).rest), st.event.input, st.event.hangup, st.at, ok);
            && (r.conn.Open? <==> Keeps(had, st, ok))
            && r.frames == if st.event.input.Read? && Fits(had, st.event.input.chunk)
                           then UpToFailure(News(had, st.event.input.chunk), st.at, ok) else []
  {
    hide Parse, Drain, Written, UpToFailure;
    if st.event.input.Read? {
      ParseAppend(had, st.event.input.chunk);
      DrainTold(Parse(had).rest + st.event.input.chunk, st.at, ok);
    }
  }

  lemma ClientStory(trace: seq<Step>, streams: map<int, seq<byte>>, k: nat, running: bool, ok: nat -> bool,
                    fd: int, input: Input, hangup: bool)
    requires Story(trace, streams, k, running, ok) && fd in streams && !Parse(streams[fd]).bad
    ensures var r := ClientEvent(Open(Parse(streams[fd]).rest), input, hangup, k, ok);
            Story(trace + [Handled(Client(fd, input, hangup), -1, k)],
                  if r.conn.Closed? then streams - {fd} else streams[fd := streams[fd] + input.Bytes()],
                  k + |r.frames|, running && NoShutdown(r.frames), ok)
  {
    var st := Handled(Client(fd, input, hangup), -1, k);
    hide Admissible, GoesOn, AllKeep, Received, Dispatched, Since, Heard, Alive, Keeps, Parse, ClientEvent, NoShutdown;
    hide Fits, News, UpToFailure;
    var r := ClientEvent(Open(Parse(streams[fd]).rest), input, hangup, k, ok);
    assert Alive(trace, fd, ok) && Heard(trace, fd) == streams[fd];
    EventTold(streams[fd], st, ok);
    ClientAdmissible(trace, st, ok);
    AdmissionsStep(trace, st, ok);
    DispatchedStep(trace, st, ok);
    GoesOnStep(trace, st, ok);
    NoShutdownIn(r.frames);
    assert DispatchedBy(trace, st, ok) == r.frames;
    forall g
      ensures Alive(trace + [st], g, ok) <==> if g == fd then r.conn.Open? else Alive(trace, g, ok)
      ensures g == fd && r.conn.Open? ==> Heard(trace + [st], g) == streams[fd] + input.Bytes()
      ensures g != fd ==> Heard(trace + [st], g) == Heard(trace, g)
    {
      AliveStep(trace, st, g, ok);
      SinceDecides(trace, trace + [st], g, ok);
    }
  }

  lemma ClientAdmissible(trace: seq<Step>, st: Step, ok: nat -> bool)
    requires st.Handled? && st.event.Client? && st.at == |Dispatched(trace, ok)| && st.admitted < 0
    ensures Admissible(trace, st, ok)
  {
    hide LiveSet, Dispatched;
  }

  // ----- How connections begin and end -----

  predicate NotAdmitted(steps: seq<Step>, fd: int) {
    forall i :: 0 <= i < |steps| && steps[i].Handled? ==> steps[i].admitted != fd
  }

  /** A hangup, a failed read or a chunk that does not fit ends a connection, and until its descriptor is
      admitted again, nothing brings it back. */
  lemma {:induction false} EndedStaysEnded(trace: seq<Step>, st: Step, more: seq<Step>, fd: int, ok: nat -> bool)
    requires For(st, fd) && st.admitted != fd && NotAdmitted(more, fd)
    requires || st.event.hangup || st.event.input.ReadFailed?
             || (st.event.input.Read? && !Fits(Heard(trace, fd), st.event.input.chunk))
    ensures !Alive(trace + [st] + more, fd, ok)
    decreases |more|
  {
    hide Heard, Alive, Since;
    AliveStep(trace, st, fd, ok);
    if more == [] {
      assert trace + [st] + more == trace + [st];
      if fd < 0 {
        NegativeIsDead(trace + [st], fd, ok);
      }
    } else {
      var init, last := more[..|more| - 1], more[|more| - 1];
      EndedStaysEnded(trace, st, init, fd, ok);
      assert trace + [st] + more == trace + [st] + init + [last];
      LaterStep(trace + [st] + init, last, fd, ok);
    }
  }

  lemma NegativeIsDead(trace: seq<Step>, fd: int, ok: nat -> bool)
    requires fd < 0
    ensures !Alive(trace, fd, ok)
  {
    if Since(trace, fd).Some? {
      SinceAdmitted(trace, fd);
    }
  }

  lemma LaterStep(trace: seq<Step>, st: Step, fd: int, ok: nat -> bool)
    requires !Alive(trace, fd, ok) && (st.Handled? ==> st.admitted != fd)
    ensures !Alive(trace + [st], fd, ok)
  {
    if st.Handled? {
      AliveStep(trace, st, fd, ok);
      SinceDecides(trace, trace + [st], fd, ok);
    } else {
      SinceStep(trace, st, fd);
    }
  }

  /** A connection that was admitted lives, with nothing received, while no event comes for it. */
  lemma {:induction false} AdmittedLives(trace: seq<Step>, st: Step, more: seq<Step>, fd: int, ok: nat -> bool)
    requires st.Handled? && st.admitted == fd >= 0
    requires forall i :: 0 <= i < |more| ==> more[i].Handled? && more[i].admitted != fd && !For(more[i], fd)
    ensures Alive(trace + [st] + more, fd, ok) && Heard(trace + [st] + more, fd) == []
    decreases |more|
  {
    hide Heard, Alive, Since;
    if more == [] {
      assert trace + [st] + more == trace + [st];
      AliveStep(trace, st, fd, ok);
    } else {
      var init, last := more[..|more| - 1], more[|more| - 1];
      AdmittedLives(trace, st, init, fd, ok);
      assert trace + [st] + more == trace + [st] + init + [last];
      AliveStep(trace + [st] + init, last, fd, ok);
      SinceDecides(trace + [st] + init, trace + [st] + init + [last], fd, ok);
    }
  }
}
