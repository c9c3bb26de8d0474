/** What the receive path of `include/axiom/server.hpp` means for one connection: a pure parser
    of the byte stream, the buffered machine that is fed chunk by chunk, and how the two agree. */
module Framing {
  import opened Bytes
  import opened Wire

  const BUFFER_CAPACITY: nat := 65536
  const MAX_CHUNK: nat := 4096

  /** A frame this long or shorter can never make a chunk overflow the receive buffer. */
  const SAFE_FRAME: nat := BUFFER_CAPACITY - MAX_CHUNK + 1

  /** What the front of a byte string holds. */
  datatype Head = NeedMore | Bad | Whole(frame: Frame)

  function FrameLen(h: FrameHeader): nat { HEADER_SIZE + h.payloadLen }

  function Next(s: seq<byte>): (r: Head)
    ensures r.Whole? ==> HEADER_SIZE <= FrameLen(r.frame.header) <= |s|
    ensures r.Whole? ==> |r.frame.payload| == r.frame.header.payloadLen <= BUFFER_CAPACITY - HEADER_SIZE
  {
    if |s| < HEADER_SIZE then NeedMore
    else match DecodeHeader(s)
      case Err(_) => Bad
      case Ok(h) =>
        if h.payloadLen > BUFFER_CAPACITY - HEADER_SIZE then Bad
        else if |s| < FrameLen(h) then NeedMore
        else Whole(Frame(h, s[HEADER_SIZE..FrameLen(h)]))
  }

  // ----- The reference: parse a complete stream -----

  datatype Parsed = Parsed(frames: seq<Frame>, rest: seq<byte>, bad: bool)

  /** All frames up to the first bad header, and the unconsumed suffix. */
  function Parse(s: seq<byte>): Parsed
    decreases |s|
  {
    match Next(s)
    case NeedMore => Parsed([], s, false)
    case Bad => Parsed([], s, true)
    case Whole(f) =>
      var p := Parse(s[FrameLen(f.header)..]);
      Parsed([f] + p.frames, p.rest, p.bad)
  }

  // ----- The machine: one connection's buffer -----

  /** A connection is closed, or open with the bytes it has not consumed. */
  datatype Conn = Closed | Open(buf: seq<byte>)

  datatype Outcome = Outcome(frames: seq<Frame>, conn: Conn)

  /** Dispatching f closes the connection when its response cannot be written. */
  predicate Closes(f: Frame, writeOk: bool) { Answered(f) && !writeOk }

  /** The frame loop; `ok(k)` tells whether the k-th dispatch can write its response. */
  function Drain(s: seq<byte>, k: nat, ok: nat -> bool): Outcome
    decreases |s|
  {
    match Next(s)
    case NeedMore => Outcome([], Open(s))
    case Bad => Outcome([], Closed)
    case Whole(f) =>
      if Closes(f, ok(k)) then Outcome([f], Closed)
      else
        var r := Drain(s[FrameLen(f.header)..], k + 1, ok);
        Outcome([f] + r.frames, r.conn)
  }

  /** One read: overflow drops the connection before anything in the chunk is parsed. */
  function Feed(c: Conn, chunk: seq<byte>, k: nat, ok: nat -> bool): Outcome {
    if c.Closed? then Outcome([], Closed)
    else if |c.buf| + |chunk| > BUFFER_CAPACITY then Outcome([], Closed)
    else Drain(c.buf + chunk, k, ok)
  }

  function FeedAll(c: Conn, chunks: seq<seq<byte>>, k: nat, ok: nat -> bool): Outcome
    decreases chunks
  {
    if chunks == [] then Outcome([], c)
    else
      var r := Feed(c, chunks[0], k, ok);
      var t := FeedAll(r.conn, chunks[1..], k + |r.frames|, ok);
      Outcome(r.frames + t.frames, t.conn)
  }

  function Concat(chunks: seq<seq<byte>>): seq<byte> {
    if chunks == [] then [] else chunks[0] + Concat(chunks[1..])
  }

  /** What `read` into a 4096-byte array can return. */
  predicate GoodChunks(chunks: seq<seq<byte>>) {
    forall i :: 0 <= i < |chunks| ==> 1 <= |chunks[i]| <= MAX_CHUNK
  }

  ghost predicate AlwaysOk(ok: nat -> bool) { forall k: nat :: ok(k) }

  // ----- The parser on concatenations -----

  lemma Assoc<T>(a: seq<T>, b: seq<T>, c: seq<T>)
    ensures (a + b) + c == a + (b + c)
  {
  }

  /** The front of a stream does not change when more bytes arrive. */
  lemma NextMonotone(s: seq<byte>, t: seq<byte>)
    ensures !Next(s).NeedMore? ==> Next(s + t) == Next(s)
  {
    if |s| >= HEADER_SIZE {
      DecodeHeaderPrefix(s, t);
      match DecodeHeader(s)
      case Err(_) =>
      case Ok(h) =>
        if FrameLen(h) <= |s| {
          assert (s + t)[HEADER_SIZE..FrameLen(h)] == s[HEADER_SIZE..FrameLen(h)];
        }
    }
  }

  lemma {:induction false} ParseRest(s: seq<byte>)
    ensures !Parse(s).bad ==> Next(Parse(s).rest).NeedMore?
    ensures |Parse(s).rest| <= |s| && Parse(s).rest == s[|s| - |Parse(s).rest|..]
    decreases |s|
  {
    var n := Next(s);
    if n.Whole? {
      ParseRest(s[FrameLen(n.frame.header)..]);
    }
  }

  lemma EmptyWaits()
    ensures Next([]).NeedMore?
  {
  }

  lemma ParseWaiting(s: seq<byte>)
    requires Next(s).NeedMore?
    ensures Parse(s) == Parsed([], s, false)
  {
  }

  /** Parsing may be split anywhere: parse the first part, then what is left of it and the second. */
  lemma {:induction false} ParseAppend(s: seq<byte>, t: seq<byte>)
    ensures Parse(s).bad ==> Parse(s + t).bad && Parse(s + t).frames == Parse(s).frames
    ensures !Parse(s).bad ==>
              var p := Parse(Parse(s).rest + t);
              Parse(s + t) == Parsed(Parse(s).frames + p.frames, p.rest, p.bad)
    decreases |s|
  {
    NextMonotone(s, t);
    var n := Next(s);
    if n.Whole? {
      var len := FrameLen(n.frame.header);
      assert (s + t)[len..] == s[len..] + t;
      ParseAppend(s[len..], t);
      var p := Parse(s[len..]);
      Assoc([n.frame], p.frames, Parse(p.rest + t).frames);
    } else if n.NeedMore? {
      assert [] + Parse(s + t).frames == Parse(s + t).frames;
    }
  }

  // ----- The machine against the parser -----

  function Reached(p: Parsed): Conn { if p.bad then Closed else Open(p.rest) }

  /** Without write failures the frame loop is the parser. */
  lemma {:induction false} DrainIsParse(s: seq<byte>, k: nat, ok: nat -> bool)
    requires AlwaysOk(ok)
    ensures Drain(s, k, ok) == Outcome(Parse(s).frames, Reached(Parse(s)))
    decreases |s|
  {
    var n := Next(s);
    if n.Whole? {
      DrainIsParse(s[FrameLen(n.frame.header)..], k + 1, ok);
    }
  }

  /** With write failures it dispatches a prefix of the parse, and the whole parse if it stays open. */
  lemma {:induction false} DrainIsPrefix(s: seq<byte>, k: nat, ok: nat -> bool)
    ensures Drain(s, k, ok).frames <= Parse(s).frames
    ensures Drain(s, k, ok).conn.Open? ==> Parse(s) == Parsed(Drain(s, k, ok).frames, Drain(s, k, ok).conn.buf, false)
    decreases |s|
  {
    var n := Next(s);
    if n.Whole? {
      DrainIsPrefix(s[FrameLen(n.frame.header)..], k + 1, ok);
    }
  }

  /** A closed connection dispatches nothing more. */
  lemma {:induction false} ClosedStaysClosed(chunks: seq<seq<byte>>, k: nat, ok: nat -> bool)
    ensures FeedAll(Closed, chunks, k, ok) == Outcome([], Closed)
  {
    if chunks != [] {
      ClosedStaysClosed(chunks[1..], k, ok);
    }
  }

  /** Safety, with no assumption at all on lengths, chunk sizes or writes. */
  lemma {:induction false} FeedAllIsPrefix(buf: seq<byte>, chunks: seq<seq<byte>>, k: nat, ok: nat -> bool)
    requires Next(buf).NeedMore?
    ensures var r := FeedAll(Open(buf), chunks, k, ok);
            var p := Parse(buf + Concat(chunks));
            r.frames <= p.frames && (r.conn.Open? ==> p == Parsed(r.frames, r.conn.buf, false))
    decreases chunks
  {
    hide Next, Parse, Drain, SafeStream;
    if chunks == [] {
      assert buf + Concat(chunks) == buf;
      ParseWaiting(buf);
    } else {
      var c := chunks[0];
      var r := Feed(Open(buf), c, k, ok);
      assert buf + Concat(chunks) == (buf + c) + Concat(chunks[1..]);
      ParseAppend(buf + c, Concat(chunks[1..]));
      if |buf| + |c| <= BUFFER_CAPACITY {
        DrainIsPrefix(buf + c, k, ok);
      }
      if r.conn.Open? {
        ParseRest(buf + c);
        FeedAllIsPrefix(r.conn.buf, chunks[1..], k + |r.frames|, ok);
      } else {
        ClosedStaysClosed(chunks[1..], k + |r.frames|, ok);
      }
    }
  }

  /** In every run a connection dispatches a prefix of the pure parse of the bytes it received,
      and while it is open, exactly that parse, with the unconsumed suffix in its buffer. */
  lemma DispatchedIsPrefixOfParse(chunks: seq<seq<byte>>, ok: nat -> bool)
    ensures var r := FeedAll(Open([]), chunks, 0, ok);
            var p := Parse(Concat(chunks));
            r.frames <= p.frames && (r.conn.Open? ==> p == Parsed(r.frames, r.conn.buf, false))
  {
    FeedAllIsPrefix([], chunks, 0, ok);
    assert [] + Concat(chunks) == Concat(chunks);
  }

  // ----- Chunk independence, and exactly when it holds -----

  /** No frame longer than SAFE_FRAME has more than a buffer's worth of bytes at and behind its start. */
  predicate SafeStream(s: seq<byte>)
    decreases |s|
  {
    if |s| < HEADER_SIZE then true
    else match DecodeHeader(s)
      case Err(_) => true
      case Ok(h) =>
        if h.payloadLen > BUFFER_CAPACITY - HEADER_SIZE then true
        else
          && (FrameLen(h) <= SAFE_FRAME || |s| <= BUFFER_CAPACITY)
          && (FrameLen(h) <= |s| ==> SafeStream(s[FrameLen(h)..]))
  }

  /** Every frame before the first bad header, the unfinished last one included, is short. */
  predicate ShortFrames(s: seq<byte>)
    decreases |s|
  {
    if |s| < HEADER_SIZE then true
    else match DecodeHeader(s)
      case Err(_) => true
      case Ok(h) =>
        if h.payloadLen > BUFFER_CAPACITY - HEADER_SIZE then true
        else FrameLen(h) <= SAFE_FRAME && (FrameLen(h) <= |s| ==> ShortFrames(s[FrameLen(h)..]))
  }

  lemma {:induction false} ShortFramesAreSafe(s: seq<byte>)
    requires ShortFrames(s)
    ensures SafeStream(s)
    decreases |s|
  {
    if |s| >= HEADER_SIZE && DecodeHeader(s).Ok? {
      var len := FrameLen(DecodeHeader(s).value);
      if HEADER_SIZE <= len <= BUFFER_CAPACITY && len <= |s| {
        ShortFramesAreSafe(s[len..]);
      }
    }
  }

  lemma {:induction false} SafeSuffix(s: seq<byte>, t: seq<byte>)
    requires SafeStream(s + t) && !Parse(s).bad
    ensures SafeStream(Parse(s).rest + t)
    decreases |s|
  {
    var n := Next(s);
    if n.Whole? {
      var len := FrameLen(n.frame.header);
      DecodeHeaderPrefix(s, t);
      assert (s + t)[len..] == s[len..] + t;
      SafeSuffix(s[len..], t);
    }
  }

  /** A waiting buffer of a safe stream has room for the next chunk. */
  lemma RoomForChunk(buf: seq<byte>, c: seq<byte>, t: seq<byte>)
    requires Next(buf).NeedMore? && |c| <= MAX_CHUNK && SafeStream(buf + (c + t))
    ensures |buf| + |c| <= BUFFER_CAPACITY
  {
    if |buf| >= HEADER_SIZE {
      DecodeHeaderPrefix(buf, c + t);
    }
  }

  lemma {:induction false} FeedAllIsParse(buf: seq<byte>, chunks: seq<seq<byte>>, k: nat, ok: nat -> bool)
    requires Next(buf).NeedMore? && GoodChunks(chunks) && AlwaysOk(ok)
    requires SafeStream(buf + Concat(chunks))
    ensures var p := Parse(buf + Concat(chunks));
            FeedAll(Open(buf), chunks, k, ok) == Outcome(p.frames, Reached(p))
    decreases chunks
  {
    hide Next, Parse, Drain, SafeStream;
    if chunks == [] {
      assert buf + Concat(chunks) == buf;
      ParseWaiting(buf);
    } else {
      var c, t := chunks[0], Concat(chunks[1..]);
      RoomForChunk(buf, c, t);
      DrainIsParse(buf + c, k, ok);
      assert buf + Concat(chunks) == (buf + c) + t;
      ParseAppend(buf + c, t);
      var r := Feed(Open(buf), c, k, ok);
      if r.conn.Open? {
        ParseRest(buf + c);
        SafeSuffix(buf + c, t);
        FeedAllIsParse(r.conn.buf, chunks[1..], k + |r.frames|, ok);
      } else {
        ClosedStaysClosed(chunks[1..], k + |r.frames|, ok);
      }
    }
  }

  /** One-byte reads: the chunking that never overflows. */
  function Singles(s: seq<byte>): (chunks: seq<seq<byte>>)
    ensures GoodChunks(chunks) && |chunks| == |s|
  {
    if s == [] then [] else [[s[0]]] + Singles(s[1..])
  }

  lemma {:induction false} ConcatSingles(s: seq<byte>)
    ensures Concat(Singles(s)) == s
  {
    if s != [] {
      ConcatSingles(s[1..]);
      assert Singles(s)[1..] == Singles(s[1..]);
    }
  }

  lemma {:induction false} ConcatAppend(a: seq<seq<byte>>, b: seq<seq<byte>>)
    ensures Concat(a + b) == Concat(a) + Concat(b)
  {
    if a == [] {
      assert a + b == b;
    } else {
      assert (a + b)[1..] == a[1..] + b;
      ConcatAppend(a[1..], b);
    }
  }

  lemma {:induction false} FeedAllAppend(c: Conn, a: seq<seq<byte>>, b: seq<seq<byte>>, k: nat, ok: nat -> bool)
    ensures var r := FeedAll(c, a, k, ok);
            var t := FeedAll(r.conn, b, k + |r.frames|, ok);
            FeedAll(c, a + b, k, ok) == Outcome(r.frames + t.frames, t.conn)
    decreases a
  {
    hide Feed;
    if a == [] {
      assert a + b == b;
    } else {
      assert (a + b)[0] == a[0] && (a + b)[1..] == a[1..] + b;
      var r := Feed(c, a[0], k, ok);
      FeedAllAppend(r.conn, a[1..], b, k + |r.frames|, ok);
      var u := FeedAll(r.conn, a[1..], k + |r.frames|, ok);
      var v := FeedAll(u.conn, b, k + |r.frames| + |u.frames|, ok);
      Assoc(r.frames, u.frames, v.frames);
    }
  }

  /** A one-byte read always fits, because an unfinished frame is shorter than the buffer. */
  lemma RoomForByte(buf: seq<byte>)
    requires Next(buf).NeedMore?
    ensures |buf| < BUFFER_CAPACITY
  {
  }

  lemma {:induction false} FeedSingles(buf: seq<byte>, s: seq<byte>, k: nat, ok: nat -> bool)
    requires Next(buf).NeedMore? && AlwaysOk(ok)
    ensures var p := Parse(buf + s);
            FeedAll(Open(buf), Singles(s), k, ok) == Outcome(p.frames, Reached(p))
    decreases |s|
  {
    hide Next, Parse, Drain;
    if s == [] {
      assert buf + s == buf;
      ParseWaiting(buf);
    } else {
      var c, t := [s[0]], s[1..];
      assert Singles(s)[0] == c && Singles(s)[1..] == Singles(t);
      assert buf + s == (buf + c) + t;
      RoomForByte(buf);
      DrainIsParse(buf + c, k, ok);
      ParseAppend(buf + c, t);
      var r := Feed(Open(buf), c, k, ok);
      if r.conn.Open? {
        ParseRest(buf + c);
        FeedSingles(r.conn.buf, t, k + |r.frames|, ok);
      } else {
        ClosedStaysClosed(Singles(t), k + |r.frames|, ok);
      }
    }
  }

  lemma UnsafeFront(s: seq<byte>)
    requires !SafeStream(s)
    ensures Next(s).Whole?
    ensures var len := FrameLen(Next(s).frame.header);
            (len > SAFE_FRAME && |s| > BUFFER_CAPACITY) || !SafeStream(s[len..])
  {
  }

  /** The front frame alone parses to itself. */
  lemma ParseFront(s: seq<byte>)
    requires Next(s).Whole?
    ensures Parse(s[..FrameLen(Next(s).frame.header)]) == Parsed([Next(s).frame], [], false)
  {
    var front := s[..FrameLen(Next(s).frame.header)];
    assert s == front + s[|front|..];
    DecodeHeaderPrefix(front, s[|front|..]);
    assert Next(front) == Next(s);
    assert front[|front|..] == [];
  }

  /** Where an unsafe stream breaks: a whole frame at offset `at`, longer than SAFE_FRAME,
      with more than a buffer's worth of bytes from its start on. */
  lemma {:induction false} FindUnsafe(s: seq<byte>) returns (at: nat)
    requires !SafeStream(s)
    ensures at + BUFFER_CAPACITY < |s| && Next(s[at..]).Whole?
    ensures FrameLen(Next(s[at..]).frame.header) > SAFE_FRAME
    ensures Parse(s[..at]) == Parsed(Parse(s[..at]).frames, [], false)
    decreases |s|
  {
    hide Next, Parse, SafeStream;
    UnsafeFront(s);
    var len := FrameLen(Next(s).frame.header);
    if len > SAFE_FRAME && |s| > BUFFER_CAPACITY {
      at := 0;
      assert s[0..] == s && s[..0] == [];
      EmptyWaits();
      ParseWaiting([]);
    } else {
      var a := FindUnsafe(s[len..]);
      at := len + a;
      var p, q := s[..len], s[len..][..a];
      assert s[len..][a..] == s[at..] && s[..at] == p + q && [] + q == q;
      ParseFront(s);
      ParseAppend(p, q);
    }
  }

  /** The first SAFE_FRAME bytes of a longer frame wait for the rest of it. */
  lemma LongFrameWaits(s: seq<byte>)
    requires Next(s).Whole? && FrameLen(Next(s).frame.header) > SAFE_FRAME
    ensures Next(s[..SAFE_FRAME]).NeedMore? && Parse(s).frames != []
  {
    var mid := s[..SAFE_FRAME];
    assert s == mid + s[SAFE_FRAME..];
    DecodeHeaderPrefix(mid, s[SAFE_FRAME..]);
  }

  /** Reading byte by byte up to the last unfinished frame, then one full chunk, then the rest. */
  function Overflowing(a: seq<byte>, b: seq<byte>, t: seq<byte>): seq<seq<byte>> {
    Singles(a) + ([b] + Singles(t))
  }

  lemma OverflowingConcat(a: seq<byte>, b: seq<byte>, t: seq<byte>)
    ensures Concat(Overflowing(a, b, t)) == a + (b + t)
  {
    hide Singles;
    ConcatSingles(a);
    ConcatSingles(t);
    ConcatAppend(Singles(a), [b] + Singles(t));
    assert ([b] + Singles(t))[1..] == Singles(t);
  }

  lemma OverflowingCloses(a: seq<byte>, b: seq<byte>, t: seq<byte>, ok: nat -> bool)
    requires !Parse(a).bad && |Parse(a).rest| + |b| > BUFFER_CAPACITY && AlwaysOk(ok)
    ensures FeedAll(Open([]), Overflowing(a, b, t), 0, ok) == Outcome(Parse(a).frames, Closed)
  {
    hide Next, Parse, Drain, Singles;
    EmptyWaits();
    FeedSingles([], a, 0, ok);
    assert [] + a == a;
    var n, rest := |Parse(a).frames|, Parse(a).rest;
    var tail := [b] + Singles(t);
    assert tail[0] == b && tail[1..] == Singles(t);
    ClosedStaysClosed(Singles(t), n, ok);
    assert FeedAll(Open(rest), tail, n, ok) == Outcome([], Closed);
    FeedAllAppend(Open([]), Singles(a), tail, 0, ok);
  }

  /** Behind whole frames p, the start of a long frame q waits while q itself would be dispatched. */
  lemma LongFrameBehind(p: seq<byte>, q: seq<byte>)
    requires Parse(p) == Parsed(Parse(p).frames, [], false)
    requires Next(q).Whole? && FrameLen(Next(q).frame.header) > SAFE_FRAME
    ensures Parse(p + q[..SAFE_FRAME]) == Parsed(Parse(p).frames, q[..SAFE_FRAME], false)
    ensures Parse(p).frames < Parse(p + q).frames
  {
    hide Next, Parse;
    var mid := q[..SAFE_FRAME];
    LongFrameWaits(q);
    ParseWaiting(mid);
    assert [] + mid == mid && [] + q == q;
    ParseAppend(p, mid);
    ParseAppend(p, q);
  }

  /** Sharpness: read the start of the long frame byte by byte, then one full chunk. */
  lemma UnsafeStreamLosesFrames(s: seq<byte>, ok: nat -> bool) returns (chunks: seq<seq<byte>>)
    requires !SafeStream(s) && AlwaysOk(ok)
    ensures GoodChunks(chunks) && Concat(chunks) == s
    ensures FeedAll(Open([]), chunks, 0, ok).conn == Closed
    ensures FeedAll(Open([]), chunks, 0, ok).frames < Parse(s).frames
  {
    hide Next, Parse, Drain, SafeStream, FeedAll, Singles, Concat;
    var at := FindUnsafe(s);
    var p, q := s[..at], s[at..];
    assert s == p + q;
    LongFrameBehind(p, q);
    var mid, u := q[..SAFE_FRAME], q[SAFE_FRAME..];
    var b, t := u[..MAX_CHUNK], u[MAX_CHUNK..];
    chunks := Overflowing(p + mid, b, t);
    OverflowingConcat(p + mid, b, t);
    OverflowingCloses(p + mid, b, t, ok);
    assert b + t == u && mid + u == q;
    Assoc(p, mid, u);
  }

  /** Every chunking yields the parse. */
  ghost predicate ChunkIndependent(s: seq<byte>, ok: nat -> bool) {
    forall chunks :: GoodChunks(chunks) && Concat(chunks) == s ==>
                       FeedAll(Open([]), chunks, 0, ok) == Outcome(Parse(s).frames, Reached(Parse(s)))
  }

  /** When writes succeed, the receive path is independent of how the stream is cut into reads
      if and only if no over-long frame has more than a buffer's worth of bytes behind its start. */
  lemma ChunkIndependence(s: seq<byte>, ok: nat -> bool)
    requires AlwaysOk(ok)
    ensures ChunkIndependent(s, ok) <==> SafeStream(s)
  {
    if SafeStream(s) {
      forall chunks | GoodChunks(chunks) && Concat(chunks) == s
        ensures FeedAll(Open([]), chunks, 0, ok) == Outcome(Parse(s).frames, Reached(Parse(s)))
      {
        assert [] + Concat(chunks) == s;
        FeedAllIsParse([], chunks, 0, ok);
      }
    } else {
      var chunks := UnsafeStreamLosesFrames(s, ok);
    }
  }

  // ----- Host and guest together -----

  datatype Request = Request(opcode: nat, requestId: nat, payload: seq<byte>) {
    /** What `struct.pack` accepts and the guest's receive buffer holds under every chunking. */
    predicate Sendable() {
      U16(opcode) && U32(requestId) && HEADER_SIZE + |payload| <= SAFE_FRAME
    }

    function ToFrame(): Frame {
      Frame(FrameHeader(WIRE_MAGIC, opcode, requestId, |payload|), payload)
    }
  }

  function SendAll(reqs: seq<Request>): seq<byte> {
    if reqs == [] then [] else EncodeFrame(reqs[0].opcode, reqs[0].requestId, reqs[0].payload) + SendAll(reqs[1..])
  }

  function ToFrames(reqs: seq<Request>): seq<Frame> {
    if reqs == [] then [] else [reqs[0].ToFrame()] + ToFrames(reqs[1..])
  }

  /** The header at the front of a sent stream is that of its first request. */
  lemma HeaderOfSent(r: Request, t: seq<byte>)
    requires U16(r.opcode) && U32(r.requestId) && U32(|r.payload|)
    ensures var s := EncodeFrame(r.opcode, r.requestId, r.payload) + t;
            DecodeHeader(s) == Ok(r.ToFrame().header) && s == EncodeHeader(r.ToFrame().header) + (r.payload + t)
  {
    var h := r.ToFrame().header;
    assert EncodeFrame(r.opcode, r.requestId, r.payload) + t == EncodeHeader(h) + (r.payload + t);
    HeaderRoundTrip(h, r.payload + t);
  }

  /** The front of a sent stream is its first request. */
  lemma FrontOfSent(r: Request, t: seq<byte>)
    requires U16(r.opcode) && U32(r.requestId) && FrameLen(r.ToFrame().header) <= BUFFER_CAPACITY
    ensures var s := EncodeFrame(r.opcode, r.requestId, r.payload) + t;
            DecodeHeader(s) == Ok(r.ToFrame().header) && Next(s) == Whole(r.ToFrame())
            && s[FrameLen(r.ToFrame().header)..] == t
  {
    var h := r.ToFrame().header;
    var s := EncodeFrame(r.opcode, r.requestId, r.payload) + t;
    HeaderOfSent(r, t);
    assert s[HEADER_SIZE..FrameLen(h)] == r.payload && s[FrameLen(h)..] == t;
  }

  /** A request that is sent alone, as the client loops do, arrives exactly when its frame is no
      longer than the receive buffer; otherwise the guest drops the connection. */
  lemma LoneRequestArrives(r: Request, chunks: seq<seq<byte>>, ok: nat -> bool)
    requires U16(r.opcode) && U32(r.requestId) && U32(|r.payload|)
    requires GoodChunks(chunks) && Concat(chunks) == EncodeFrame(r.opcode, r.requestId, r.payload) && AlwaysOk(ok)
    ensures FeedAll(Open([]), chunks, 0, ok)
         == if HEADER_SIZE + |r.payload| <= BUFFER_CAPACITY then Outcome([r.ToFrame()], Open([]))
            else Outcome([], Closed)
  {
    hide FeedAll, EncodeFrame, DecodeHeader;
    var s := EncodeFrame(r.opcode, r.requestId, r.payload);
    assert s + [] == s;
    HeaderOfSent(r, []);
    if HEADER_SIZE + |r.payload| <= BUFFER_CAPACITY {
      FrontOfSent(r, []);
      EmptyWaits();
      ParseWaiting([]);
    }
    ChunkIndependence(s, ok);
  }

  lemma FrameLength(r: Request)
    ensures |EncodeFrame(r.opcode, r.requestId, r.payload)| == HEADER_SIZE + |r.payload|
  {
  }

  /** Two requests sent without waiting, the first with the longest payload that the header check allows:
      some way of reading them loses a frame. */
  lemma PipelinedRequestsCanBeLost(a: Request, b: Request, ok: nat -> bool) returns (chunks: seq<seq<byte>>)
    requires U16(a.opcode) && U32(a.requestId) && |a.payload| == BUFFER_CAPACITY - HEADER_SIZE && AlwaysOk(ok)
    ensures GoodChunks(chunks) && Concat(chunks) == SendAll([a, b])
    ensures FeedAll(Open([]), chunks, 0, ok).conn == Closed
    ensures FeedAll(Open([]), chunks, 0, ok).frames < Parse(SendAll([a, b])).frames
  {
    hide FeedAll, Parse, EncodeFrame, DecodeHeader;
    var s, t := SendAll([a, b]), SendAll([b]);
    assert [a, b][1..] == [b] && [b][1..] == [];
    assert t == EncodeFrame(b.opcode, b.requestId, b.payload) + SendAll([b][1..]);
    FrameLength(b);
    HeaderOfSent(a, t);
    assert s == EncodeFrame(a.opcode, a.requestId, a.payload) + t;
    assert !SafeStream(s);
    chunks := UnsafeStreamLosesFrames(SendAll([a, b]), ok);
  }

  lemma {:induction false} ParseSendAll(reqs: seq<Request>)
    requires forall i :: 0 <= i < |reqs| ==> reqs[i].Sendable()
    ensures Parse(SendAll(reqs)) == Parsed(ToFrames(reqs), [], false)
    ensures ShortFrames(SendAll(reqs))
    decreases |reqs|
  {
    hide Next, DecodeHeader, EncodeFrame;
    if reqs == [] {
      EmptyWaits();
      ParseWaiting([]);
    } else {
      FrontOfSent(reqs[0], SendAll(reqs[1..]));
      ParseSendAll(reqs[1..]);
    }
  }

  /** Whatever the host sends with frames of safe length, the guest dispatches exactly those
      frames in order and ends with an empty buffer, however the reads cut the stream. */
  lemma {:induction false} HostFramesArrive(reqs: seq<Request>, chunks: seq<seq<byte>>, ok: nat -> bool)
    requires forall i :: 0 <= i < |reqs| ==> reqs[i].Sendable()
    requires GoodChunks(chunks) && Concat(chunks) == SendAll(reqs) && AlwaysOk(ok)
    ensures FeedAll(Open([]), chunks, 0, ok) == Outcome(ToFrames(reqs), Open([]))
  {
    ParseSendAll(reqs);
    ShortFramesAreSafe(SendAll(reqs));
    ChunkIndependence(SendAll(reqs), ok);
  }
}
