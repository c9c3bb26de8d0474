/** Files moved in chunks between host and guest: the client loops of `host/axiom/vm.py`, the
    message layouts of `host/axiom/wire.py` and `include/axiom/wire.hpp`, and the handlers of
    `include/axiom/server.hpp`, which act on a map from paths to contents. */
module FileTransfer {
  import opened Bytes
  import opened Wire
  import opened Search
  import Framing

  const WORK_BUFFER: nat := 256 * 1024
  const EINVAL: int := 22
  const ENOENT: int := 2
  const EACCES: int := 13
  const EMFILE: int := 24

  type Files = map<seq<byte>, seq<byte>>

  // ----- Layouts -----

  datatype ReadRequest = ReadRequest(offset: nat, maxBytes: nat, path: seq<byte>) {
    /** What `struct.pack` accepts. */
    predicate Packable() { U32(offset) && U32(maxBytes) && U16(|path|) }
  }

  datatype WriteRequest = WriteRequest(flags: nat, mode: nat, path: seq<byte>, content: seq<byte>) {
    predicate Packable() { U32(flags) && U32(mode) && U16(|path|) && U32(|content|) }
  }

  datatype ReadResponse = ReadResponse(status: int, totalSize: nat, content: seq<byte>)
  datatype WriteResponse = WriteResponse(status: int, bytesWritten: nat)

  predicate I32(x: int) { -0x8000_0000 <= x < 0x8000_0000 }

  /** Two's complement in four bytes. */
  function Signed(x: int): (s: seq<byte>)
    requires I32(x)
    ensures |s| == 4
  {
    LE(if x < 0 then x + 0x1_0000_0000 else x, 4)
  }

  function FromSigned(s: seq<byte>): int {
    if FromLE(s) < 0x8000_0000 then FromLE(s) else FromLE(s) - 0x1_0000_0000
  }

  lemma SignedRoundTrip(x: int)
    requires I32(x)
    ensures FromSigned(Signed(x)) == x
  {
    RoundTrip32(if x < 0 then x + 0x1_0000_0000 else x);
  }

  function EncodeRead(r: ReadRequest): seq<byte> {
    LE(r.offset, 4) + LE(r.maxBytes, 4) + LE(|r.path|, 2) + LE(0, 2) + r.path
  }

  function EncodeWrite(r: WriteRequest): seq<byte> {
    LE(r.flags, 4) + LE(r.mode, 4) + LE(|r.path|, 2) + LE(0, 2) + LE(|r.content|, 4) + r.path + r.content
  }

  /** What the guest reads out of a request; None when it does not answer. Trailing bytes are
      ignored. */
  function DecodeRead(p: seq<byte>): Option<ReadRequest> {
    if |p| < 12 || |p| < 12 + Field(p, 8, 2) then None
    else Some(ReadRequest(Field(p, 0, 4), Field(p, 4, 4), p[12..12 + Field(p, 8, 2)]))
  }

  function DecodeWrite(p: seq<byte>): Option<WriteRequest> {
    if |p| < 16 || |p| < 16 + Field(p, 8, 2) + Field(p, 12, 4) then None
    else
      var n := Field(p, 8, 2);
      Some(WriteRequest(Field(p, 0, 4), Field(p, 4, 4), p[16..16 + n], p[16 + n..16 + n + Field(p, 12, 4)]))
  }

  function EncodeReadResponse(r: ReadResponse): seq<byte>
    requires I32(r.status)
  {
    Signed(r.status) + LE(r.totalSize, 4) + LE(|r.content|, 4) + r.content
  }

  function EncodeWriteResponse(r: WriteResponse): seq<byte>
    requires I32(r.status)
  {
    Signed(r.status) + LE(r.bytesWritten, 4)
  }

  /** The host's decoders; None stands for their ValueError. */
  function DecodeReadResponse(p: seq<byte>): Option<ReadResponse> {
    if |p| < 12 then None
    else
      var end := 12 + Field(p, 8, 4);
      Some(ReadResponse(FromSigned(p[0..4]), Field(p, 4, 4), p[12..if end < |p| then end else |p|]))
  }

  function DecodeWriteResponse(p: seq<byte>): Option<WriteResponse> {
    if |p| < 8 then None else Some(WriteResponse(FromSigned(p[0..4]), Field(p, 4, 4)))
  }

  lemma ReadRequestRoundTrip(r: ReadRequest)
    requires r.Packable()
    ensures DecodeRead(EncodeRead(r)) == Some(r)
  {
    var p := EncodeRead(r);
    RoundTrip32(r.offset);
    RoundTrip32(r.maxBytes);
    RoundTrip16(|r.path|);
    hide LE, FromLE;
    var a, b, c, d := LE(r.offset, 4), LE(r.maxBytes, 4), LE(|r.path|, 2), LE(0, 2);
    Regroup5(a, b, c, d, r.path);
    Joined4(a, b, c, d + r.path);
    Joined2(p, 10, d, r.path);
  }

  lemma Regroup5(a: seq<byte>, b: seq<byte>, c: seq<byte>, d: seq<byte>, e: seq<byte>)
    ensures a + b + c + d + e == a + b + c + (d + e)
  {
  }

  lemma Joined2(p: seq<byte>, at: nat, d: seq<byte>, e: seq<byte>)
    requires at <= |p| && p[at..] == d + e
    ensures p[at + |d|..] == e && p[at..at + |d|] == d
    ensures p[at + |d|..at + |d| + |e|] == e
  {
    assert p[at + |d|..] == p[at..][|d|..];
    assert p[at..at + |d|] == p[at..][..|d|];
  }

  lemma WriteRequestRoundTrip(r: WriteRequest)
    requires r.Packable()
    ensures DecodeWrite(EncodeWrite(r)) == Some(r)
  {
    var p := EncodeWrite(r);
    RoundTrip32(r.flags);
    RoundTrip32(r.mode);
    RoundTrip16(|r.path|);
    RoundTrip32(|r.content|);
    hide LE, FromLE;
    var a, b, c, d, e := LE(r.flags, 4), LE(r.mode, 4), LE(|r.path|, 2), LE(0, 2), LE(|r.content|, 4);
    Regroup(a, b, c, d, e, r.path, r.content);
    Joined4(a, b, c, d + (e + (r.path + r.content)));
    Joined2(p, 10, d, e + (r.path + r.content));
    Joined2(p, 12, e, r.path + r.content);
    Joined2(p, 16, r.path, r.content);
  }

  lemma Regroup(a: seq<byte>, b: seq<byte>, c: seq<byte>, d: seq<byte>, e: seq<byte>, f: seq<byte>, g: seq<byte>)
    ensures a + b + c + d + e + f + g == a + b + c + (d + (e + (f + g)))
  {
  }

  lemma ReadResponseRoundTrip(r: ReadResponse)
    requires I32(r.status) && U32(r.totalSize) && U32(|r.content|)
    ensures DecodeReadResponse(EncodeReadResponse(r)) == Some(r)
  {
    var p := EncodeReadResponse(r);
    SignedRoundTrip(r.status);
    RoundTrip32(r.totalSize);
    RoundTrip32(|r.content|);
    hide LE, FromLE, Signed, FromSigned;
    Joined4(Signed(r.status), LE(r.totalSize, 4), LE(|r.content|, 4), r.content);
    assert p[12..12 + |r.content|] == p[12..];
    assert Field(p, 8, 4) == |r.content|;
  }

  lemma WriteResponseRoundTrip(r: WriteResponse)
    requires I32(r.status) && U32(r.bytesWritten)
    ensures DecodeWriteResponse(EncodeWriteResponse(r)) == Some(r)
  {
    var p := EncodeWriteResponse(r);
    SignedRoundTrip(r.status);
    RoundTrip32(r.bytesWritten);
    hide LE, FromLE, Signed, FromSigned;
    assert p[0..4] == Signed(r.status) && p[4..8] == LE(r.bytesWritten, 4);
  }

  // ----- The guest -----

  /** A path as the C library sees it: up to the first zero byte. */
  function CString(path: seq<byte>): seq<byte>
    decreases path
  {
    if path == [] || path[0] == 0 then [] else [path[0]] + CString(path[1..])
  }

  /** A C string ends at the first zero byte, or with the path. */
  lemma {:induction false} CStringEnds(path: seq<byte>)
    ensures CString(path) <= path && 0 !in CString(path)
    ensures |CString(path)| < |path| ==> path[|CString(path)|] == 0
    decreases |path|
  {
    if path != [] && path[0] != 0 {
      CStringEnds(path[1..]);
    }
  }

  /** What the file system does to a write: all of it, a failed open, or a write that stops
      after some bytes. */
  datatype WriteEnv = WriteFine | OpenFails(errno: int) | WriteFails(errno: int, after: nat) {
    predicate Possible() { !WriteFine? ==> 0 < errno < 4096 }
  }

  /** The bytes that one `read` returns: at least one when there is one, never more than asked. */
  function ReadCount(available: nat, max: nat, wish: nat): (n: nat)
    requires max > 0
    ensures n <= available && n <= max && (available > 0 ==> n > 0)
  {
    var most := if available < max then available else max;
    if wish > most then most else if wish == 0 && most > 0 then 1 else wish
  }

  function ReadMax(maxBytes: nat): (m: nat)
    ensures 0 < m <= WORK_BUFFER
  {
    if 0 < maxBytes < WORK_BUFFER then maxBytes else WORK_BUFFER
  }

  /** What the file system does to a read: the open fails, or the size is found out or not, and the
      seek and the read go through, with some bytes wished for, or one of them fails. */
  datatype ReadEnv = CannotOpen(errno: int) | Opens(sized: bool, fault: int, wish: nat) {
    predicate Possible() { if CannotOpen? then 0 < errno < 4096 else 0 <= fault < 4096 }

    predicate Fine() { Opens? && fault == 0 }

    function Wish(): nat { if Opens? then wish else 0 }
  }

  /** The answer about a file that exists. */
  function FileAnswer(data: seq<byte>, offset: nat, max: nat, env: ReadEnv): (r: ReadResponse)
    requires max > 0
    ensures r.content != [] ==> offset + |r.content| <= |data| && r.content == data[offset..offset + |r.content|]
    ensures |r.content| <= max && U32(r.totalSize)
  {
    match env
    case CannotOpen(errno) => ReadResponse(-errno, 0, [])
    case Opens(sized, fault, wish) =>
      var total := if sized then |data| % 0x1_0000_0000 else 0;
      if fault > 0 then ReadResponse(-fault, total, [])
      else
        var available := if offset < |data| then |data| - offset else 0;
        var n := ReadCount(available, max, wish);
        ReadResponse(0, total, if n == 0 then [] else data[offset..offset + n])
  }

  predicate Exists(files: Files, path: seq<byte>) { CString(path) != [] && CString(path) in files }

  /** The answer to a read request. */
  function ReadAnswer(files: Files, r: ReadRequest, env: ReadEnv): ReadResponse {
    if r.path == [] || |r.path| >= 4096 then ReadResponse(-EINVAL, 0, [])
    else if !Exists(files, r.path) then ReadResponse(-ENOENT, 0, [])
    else FileAnswer(files[CString(r.path)], r.offset, ReadMax(r.maxBytes), env)
  }

  /** A part of a file as a request may get it: from the offset on, no more than was asked for or the guest's
      work buffer holds, and something unless the file ends there; all of that when the system's read returns
      all it can. */
  predicate PartOf(data: seq<byte>, offset: nat, maxBytes: nat, wish: nat, part: seq<byte>) {
    && |part| <= WORK_BUFFER && (maxBytes > 0 ==> |part| <= maxBytes)
    && (offset < |data| ==> part != [] && part <= data[offset..])
    && (offset >= |data| ==> part == [])
    && (wish >= |data| ==>
          |part| == WORK_BUFFER || (maxBytes > 0 && |part| == maxBytes) || offset + |part| >= |data|)
  }

  lemma AnswerIsPart(files: Files, r: ReadRequest, env: ReadEnv)
    requires 0 < |r.path| < 4096 && Exists(files, r.path) && env.Fine()
    ensures var data, a := files[CString(r.path)], ReadAnswer(files, r, env);
            a.status == 0 && PartOf(data, r.offset, r.maxBytes, env.wish, a.content)
  {
    hide CString;
  }

  /** Only a request for a file that is there, with a path of 1 to 4095 bytes, can succeed, and it does unless
      the system fails. */
  lemma AnswerSucceeds(files: Files, r: ReadRequest, env: ReadEnv)
    requires env.Possible()
    ensures ReadAnswer(files, r, env).status == 0 <==> 0 < |r.path| < 4096 && Exists(files, r.path) && env.Fine()
    ensures ReadAnswer(files, r, env).status != 0 ==> ReadAnswer(files, r, env).content == []
  {
    hide CString;
  }

  /** What comes of a file that is read in steps of some size, each at the offset reached, up to the first
      empty part. */
  function InSteps(files: Files, path: seq<byte>, maxBytes: nat, have: nat, k: nat, env: nat -> ReadEnv): seq<byte>
    requires 0 < |path| < 4096 && Exists(files, path) && have <= |files[CString(path)]|
    decreases |files[CString(path)]| - have
  {
    var part := ReadAnswer(files, ReadRequest(have, maxBytes, path), env(k)).content;
    if part == [] then [] else part + InSteps(files, path, maxBytes, have + |part|, k + 1, env)
  }

  /** Steps of any size give the whole file. */
  lemma {:induction false} StepsGiveFile(files: Files, path: seq<byte>, maxBytes: nat, have: nat, k: nat,
                                         env: nat -> ReadEnv)
    requires 0 < |path| < 4096 && Exists(files, path) && have <= |files[CString(path)]|
    requires forall i: nat :: env(i).Fine()
    ensures InSteps(files, path, maxBytes, have, k, env) == files[CString(path)][have..]
    decreases |files[CString(path)]| - have
  {
    hide CString, ReadAnswer;
    var req, data := ReadRequest(have, maxBytes, path), files[CString(path)];
    var part := ReadAnswer(files, req, env(k)).content;
    AnswerIsPart(files, req, env(k));
    if part != [] {
      StepsGiveFile(files, path, maxBytes, have + |part|, k + 1, env);
      assert data[have..] == part + data[have + |part|..];
    }
  }

  /** What the open of a write request leaves of the file. */
  function Opened(files: Files, r: WriteRequest): seq<byte> {
    if r.flags % 2 == 1 && CString(r.path) in files then files[CString(r.path)] else []
  }

  /** The effect of a write request, and its answer. */
  function WriteEffect(files: Files, r: WriteRequest, env: WriteEnv): (Files, WriteResponse)
    requires env.Possible()
  {
    var path := CString(r.path);
    if r.path == [] || |r.path| >= 4096 then (files, WriteResponse(-EINVAL, 0))
    else if path == [] then (files, WriteResponse(-ENOENT, 0))
    else match env
      case OpenFails(errno) => (files, WriteResponse(-errno, 0))
      case WriteFine => (files[path := Opened(files, r) + r.content], WriteResponse(0, |r.content|))
      case WriteFails(errno, after) =>
        if r.content == [] then (files[path := Opened(files, r)], WriteResponse(0, 0))
        else
          var kept := if after < |r.content| then after else |r.content| - 1;
          (files[path := Opened(files, r) + r.content[..kept]], WriteResponse(-errno, 0))
  }

  /** What a write that was opened leaves: the content, or a proper beginning of it if the write fails, behind
      the old file if bit 0 of the flags is set, and by itself otherwise. */
  lemma WriteLeaves(files: Files, r: WriteRequest, env: WriteEnv)
    requires env.Possible() && 0 < |r.path| < 4096 && CString(r.path) != [] && !env.OpenFails?
    ensures var name, (after, answer) := CString(r.path), WriteEffect(files, r, env);
            var old_ := if r.flags % 2 == 1 && name in files then files[name] else [];
            && name in after && old_ <= after[name] <= old_ + r.content
            && answer.status <= 0
            && (answer.status == 0 <==> after[name] == old_ + r.content)
            && answer.bytesWritten == if answer.status == 0 then |r.content| else 0
  {
    hide CString;
  }

  class Guest {
    var files: Files

    constructor (files: Files)
      ensures this.files == files
    {
      this.files := files;
    }

    /** `handle_read_file`: the payload of the response, or nothing for a malformed request. */
    method HandleReadFile(payload: seq<byte>, env: ReadEnv) returns (reply: Option<seq<byte>>)
      requires env.Possible()
      ensures match DecodeRead(payload)
              case None => reply == None
              case Some(r) => reply == Some(EncodeReadResponse(ReadAnswer(files, r, env)))
    {
      if |payload| < 12 {
        return None;
      }
      var offset, maxBytes, pathLen := Field(payload, 0, 4), Field(payload, 4, 4), Field(payload, 8, 2);
      if |payload| < 12 + pathLen {
        return None;
      }
      var path := payload[12..12 + pathLen];
      var status: int, totalSize, content := 0, 0, [];
      if path == [] || |path| >= 4096 {
        status := -EINVAL;
      } else if !Exists(files, path) {
        status := -ENOENT;
      } else if env.CannotOpen? {
        status := -env.errno;
      } else {
        var data := files[CString(path)];
        if env.sized {
          totalSize := |data| % 0x1_0000_0000;
        }
        if env.fault > 0 {
          status := -env.fault;
        }
        if status == 0 {
          var maxRead := WORK_BUFFER;
          if maxBytes > 0 && maxBytes < maxRead {
            maxRead := maxBytes;
          }
          var available := if offset < |data| then |data| - offset else 0;
          var n := ReadCount(available, maxRead, env.wish);
          if n > 0 {
            content := data[offset..offset + n];
          }
        }
      }
      return Some(EncodeReadResponse(ReadResponse(status, totalSize, content)));
    }

    /** `handle_write_file`: opens with O_APPEND or O_TRUNC and writes the content. */
    method HandleWriteFile(payload: seq<byte>, env: WriteEnv) returns (reply: Option<seq<byte>>)
      requires env.Possible()
      modifies this
      ensures match DecodeWrite(payload)
              case None => reply == None && files == old(files)
              case Some(r) =>
                var (after, answer) := WriteEffect(old(files), r, env);
                files == after && reply == Some(EncodeWriteResponse(answer))
    {
      if |payload| < 16 {
        return None;
      }
      var flags, pathLen, contentLen := Field(payload, 0, 4), Field(payload, 8, 2), Field(payload, 12, 4);
      if |payload| < 16 + pathLen + contentLen {
        return None;
      }
      ghost var req := DecodeWrite(payload).value;
      var path := payload[16..16 + pathLen];
      var content := payload[16 + pathLen..16 + pathLen + contentLen];
      var status: int, bytesWritten := 0, 0;
      var name := CString(path);
      if path == [] || |path| >= 4096 {
        status := -EINVAL;
      } else if name == [] {
        status := -ENOENT;
      } else if env.OpenFails? {
        status := -env.errno;
      } else {
        if flags % 2 != 1 || name !in files {
          files := files[name := []];
        }
        assert files[name] == Opened(old(files), req);
        if contentLen > 0 {
          if env.WriteFails? {
            var kept := if env.after < contentLen then env.after else contentLen - 1;
            files := files[name := files[name] + content[..kept]];
            status := -env.errno;
          } else {
            files := files[name := files[name] + content];
            bytesWritten := contentLen;
          }
        }
        assert req.content == content && Opened(old(files), req) + [] == Opened(old(files), req);
        assert files == old(files)[name := files[name]];
        assert files == WriteEffect(old(files), req, env).0;
      }
      return Some(EncodeWriteResponse(WriteResponse(status, bytesWritten)));
    }
  }

  // ----- Between host and guest -----

  datatype Answer<+T> = Done(value: T) | MicroVMError

  /** A request frame that the guest's receive buffer can hold. */
  predicate FitsBuffer(payload: seq<byte>) { HEADER_SIZE + |payload| <= Framing.BUFFER_CAPACITY }

  /** How the guest's reads cut what the host sends. */
  ghost predicate Cuts(cut: seq<byte> -> seq<seq<byte>>) {
    forall s :: Framing.GoodChunks(cut(s)) && Framing.Concat(cut(s)) == s
  }

  /** A request on its way: what the guest dispatches, or nothing when the payload's length does not
      fit its field, so that `struct.pack` raises, or when the guest drops the connection. */
  method Deliver(opcode: nat, requestId: nat, payload: seq<byte>, cut: seq<byte> -> seq<seq<byte>>)
    returns (r: Option<seq<byte>>)
    requires U16(opcode) && U32(requestId) && Cuts(cut)
    ensures r == if FitsBuffer(payload) then Some(payload) else None
  {
    if !U32(|payload|) {
      return None;
    }
    var frame := EncodeFrame(opcode, requestId, payload);
    Framing.LoneRequestArrives(Framing.Request(opcode, requestId, payload), cut(frame), _ => true);
    var outcome := Framing.FeedAll(Framing.Open([]), cut(frame), 0, _ => true);
    return if outcome.frames == [] then None else Some(outcome.frames[0].payload);
  }

  /** What the host takes out of a response frame: it reads a header, checks the opcode and reads as
      many bytes as the header announces. */
  function TakeReply(frame: seq<byte>, opcode: nat): Option<seq<byte>> {
    match DecodeHeader(frame)
    case Err(_) => None
    case Ok(h) =>
      if h.opcode != opcode || |frame| < HEADER_SIZE + h.payloadLen then None
      else Some(frame[HEADER_SIZE..HEADER_SIZE + h.payloadLen])
  }

  lemma ReplyArrives(opcode: nat, requestId: nat, payload: seq<byte>)
    requires U16(opcode) && U32(requestId) && U32(|payload|)
    ensures TakeReply(EncodeFrame(opcode, requestId, payload), opcode) == Some(payload)
  {
    var h, frame := FrameHeader(WIRE_MAGIC, opcode, requestId, |payload|), EncodeFrame(opcode, requestId, payload);
    HeaderRoundTrip(h, payload);
    hide DecodeHeader, EncodeHeader;
    assert frame == EncodeHeader(h) + payload;
    assert frame[HEADER_SIZE..HEADER_SIZE + |payload|] == payload;
  }

  // ----- The host -----

  /** A path that both sides can name. */
  predicate GoodPath(path: seq<byte>) { 0 < |path| < 4096 && CString(path) == path }

  predicate SameElsewhere(a: Files, b: Files, path: seq<byte>) { a - {path} == b - {path} }

  lemma UpdatedThere(a: Files, b: Files, path: seq<byte>)
    requires SameElsewhere(a, b, path) && path in a
    ensures a == b[path := a[path]]
  {
    forall p | p in a && p != path ensures p in b && a[p] == b[p] {
      assert p in a - {path};
    }
    forall p | p in b && p != path ensures p in a {
      assert p in b - {path};
    }
  }

  const WRITE_ID: nat := 211
  const READ_ID: nat := 210

  /** `write_file`: one request and its response. */
  method WriteFile(guest: Guest, path: seq<byte>, content: seq<byte>, append: bool, mode: nat, env: WriteEnv,
                   cut: seq<byte> -> seq<seq<byte>>)
    returns (r: Answer<WriteResponse>)
    requires env.Possible() && U32(mode) && Cuts(cut)
    modifies guest
    ensures var req := WriteRequest(if append then 1 else 0, mode, path, content);
            var (after, answer) := WriteEffect(old(guest.files), req, env);
            if FitsBuffer(EncodeWrite(req)) then guest.files == after && r == Done(answer)
            else guest.files == old(guest.files) && r == MicroVMError
  {
    var req := WriteRequest(if append then 1 else 0, mode, path, content);
    var payload := EncodeWrite(req);
    var arrived := Deliver(OP_WRITE_FILE, WRITE_ID, payload, cut);
    if arrived.None? {
      return MicroVMError;
    }
    WriteRequestRoundTrip(req);
    var reply := guest.HandleWriteFile(arrived.value, env);
    ghost var answer := WriteEffect(old(guest.files), req, env).1;
    WriteResponseRoundTrip(answer);
    match reply {
      case None => return MicroVMError;
      case Some(p) =>
        ReplyArrives(OP_WRITE_FILE_RESPONSE, WRITE_ID, p);
        var taken := TakeReply(EncodeFrame(OP_WRITE_FILE_RESPONSE, WRITE_ID, p), OP_WRITE_FILE_RESPONSE);
        var resp := if taken.None? then None else DecodeWriteResponse(taken.value);
        return if resp.None? then MicroVMError else Done(resp.value);
    }
  }

  /** `read_file`: one request and its response. */
  method ReadFile(guest: Guest, path: seq<byte>, offset: nat, maxBytes: nat, env: ReadEnv,
                  cut: seq<byte> -> seq<seq<byte>>)
    returns (r: Answer<ReadResponse>)
    requires U32(offset) && U32(maxBytes) && env.Possible() && Cuts(cut)
    ensures var req := ReadRequest(offset, maxBytes, path);
            r == if FitsBuffer(EncodeRead(req)) then Done(ReadAnswer(guest.files, req, env)) else MicroVMError
    ensures r.Done? && r.value.status == 0 ==>
              && env.Fine() && Exists(guest.files, path)
              && PartOf(guest.files[CString(path)], offset, maxBytes, env.wish, r.value.content)
  {
    var req := ReadRequest(offset, maxBytes, path);
    AnswerSucceeds(guest.files, req, env);
    if 0 < |path| < 4096 && Exists(guest.files, path) && env.Fine() {
      AnswerIsPart(guest.files, req, env);
    }
    hide PartOf, CString, ReadAnswer;
    var arrived := Deliver(OP_READ_FILE, READ_ID, EncodeRead(req), cut);
    if arrived.None? {
      return MicroVMError;
    }
    ReadRequestRoundTrip(req);
    var reply := guest.HandleReadFile(arrived.value, env);
    ReadResponseRoundTrip(ReadAnswer(guest.files, req, env));
    match reply {
      case None => return MicroVMError;
      case Some(p) =>
        ReplyArrives(OP_READ_FILE_RESPONSE, READ_ID, p);
        var taken := TakeReply(EncodeFrame(OP_READ_FILE_RESPONSE, READ_ID, p), OP_READ_FILE_RESPONSE);
        var resp := if taken.None? then None else DecodeReadResponse(taken.value);
        return if resp.None? then MicroVMError else Done(resp.value);
    }
  }

  /** The writes of the chunks at offset i and all later ones go through. */
  predicate AllFine(i: nat, size: nat, chunkSize: nat, env: nat -> WriteEnv)
    requires chunkSize > 0
    decreases size - i
  {
    i >= size || (env(i).WriteFine? && AllFine(i + chunkSize, size, chunkSize, env))
  }

  /** A path that a guest can write to, in a frame with n bytes of content. */
  predicate Writable(path: seq<byte>, n: nat) {
    0 < |path| < 4096 && CString(path) != [] && HEADER_SIZE + 16 + |path| + n <= Framing.BUFFER_CAPACITY
  }

  function Min(a: nat, b: nat): nat { if a < b then a else b }

  /** The first n bytes of the content are in the file, and nothing else has changed. */
  ghost predicate HalfWritten(files: Files, was: Files, name: seq<byte>, content: seq<byte>, n: nat) {
    && n <= |content| && SameElsewhere(files, was, name)
    && (if n == 0 then files == was else name in files && files[name] == content[..n])
  }

  lemma UpdateElsewhere(files: Files, name: seq<byte>, data: seq<byte>)
    ensures SameElsewhere(files[name := data], files, name)
  {
  }

  lemma EffectElsewhere(files: Files, req: WriteRequest, env: WriteEnv)
    requires env.Possible()
    ensures SameElsewhere(WriteEffect(files, req, env).0, files, CString(req.path))
  {
    var name, after := CString(req.path), WriteEffect(files, req, env).0;
    assert after == files || (name in after && after == files[name := after[name]]) by {
      hide CString, SameElsewhere, Opened;
    }
    hide *;
    if after == files {
      SameAsItself(files, name);
    } else {
      UpdateElsewhere(files, name, after[name]);
    }
  }

  lemma SameAsItself(files: Files, name: seq<byte>)
    ensures SameElsewhere(files, files, name)
  {
  }

  /** A write with some content succeeds only as a whole. */
  lemma EffectIfDone(files: Files, req: WriteRequest, env: WriteEnv)
    requires env.Possible() && req.content != []
    ensures var (after, answer), name := WriteEffect(files, req, env), CString(req.path);
            && (answer.status == 0 <==> 0 < |req.path| < 4096 && name != [] && env.WriteFine?)
            && (answer.status == 0 ==>
                 answer.bytesWritten == |req.content| && after == files[name := Opened(files, req) + req.content])
  {
    hide CString, Opened;
  }

  lemma SameTwice(a: Files, b: Files, c: Files, name: seq<byte>)
    requires SameElsewhere(a, b, name) && SameElsewhere(b, c, name)
    ensures SameElsewhere(a, c, name)
  {
  }

  /** What the open of the write at offset i leaves. */
  lemma OpenedHalf(files: Files, was: Files, content: seq<byte>, i: nat, req: WriteRequest)
    requires HalfWritten(files, was, CString(req.path), content, i)
    requires req.flags == if i > 0 then 1 else 0
    ensures Opened(files, req) == content[..i]
  {
    hide CString, SameElsewhere;
  }

  /** What the write of the content from i to end does. */
  lemma ChunkEffect(files: Files, was: Files, path: seq<byte>, content: seq<byte>, i: nat, end: nat, mode: nat,
                    env: WriteEnv)
    requires HalfWritten(files, was, CString(path), content, i) && i < end <= |content| && env.Possible()
    ensures var req := WriteRequest(if i > 0 then 1 else 0, mode, path, content[i..end]);
            var (after, answer) := WriteEffect(files, req, env);
            && SameElsewhere(after, was, CString(path))
            && (answer.status == 0 <==> 0 < |path| < 4096 && CString(path) != [] && env.WriteFine?)
            && (answer.status == 0 ==>
                 answer.bytesWritten == end - i && HalfWritten(after, was, CString(path), content, end))
  {
    hide CString, Opened, SameElsewhere, WriteEffect;
    var req := WriteRequest(if i > 0 then 1 else 0, mode, path, content[i..end]);
    EffectElsewhere(files, req, env);
    SameTwice(WriteEffect(files, req, env).0, files, was, CString(path));
    EffectIfDone(files, req, env);
    OpenedHalf(files, was, content, i, req);
    assert content[..i] + content[i..end] == content[..end];
  }

  /** One round of the loop of `write_file_all`: the chunk from i to end. */
  method WriteChunk(guest: Guest, path: seq<byte>, content: seq<byte>, i: nat, end: nat, mode: nat, env: WriteEnv,
                    cut: seq<byte> -> seq<seq<byte>>, ghost was: Files)
    returns (r: Answer<WriteResponse>)
    requires HalfWritten(guest.files, was, CString(path), content, i) && i < end <= |content|
    requires env.Possible() && U32(mode) && Cuts(cut)
    modifies guest
    ensures SameElsewhere(guest.files, was, CString(path))
    ensures r.Done? && r.value.status == 0 <==> Writable(path, end - i) && env.WriteFine?
    ensures r.Done? && r.value.status == 0 ==>
              r.value.bytesWritten == end - i && HalfWritten(guest.files, was, CString(path), content, end)
  {
    ChunkEffect(guest.files, was, path, content, i, end, mode, env);
    hide CString, SameElsewhere, WriteEffect, Cuts;
    r := WriteFile(guest, path, content[i..end], i > 0, mode, env, cut);
  }

  /** The loop of `write_file_all`. */
  method WriteChunks(guest: Guest, path: seq<byte>, content: seq<byte>, mode: nat, chunkSize: nat,
                     env: nat -> WriteEnv, cut: seq<byte> -> seq<seq<byte>>)
    returns (r: Answer<nat>)
    requires content != [] && chunkSize > 0 && U32(mode) && (forall i: nat :: env(i).Possible()) && Cuts(cut)
    modifies guest
    ensures SameElsewhere(guest.files, old(guest.files), CString(path))
    ensures r.Done? <==> Writable(path, Min(chunkSize, |content|)) && AllFine(0, |content|, chunkSize, env)
    ensures r.Done? ==>
              r.value == |content| && HalfWritten(guest.files, old(guest.files), CString(path), content, |content|)
  {
    ghost var name, was := CString(path), guest.files;
    var totalWritten := 0;
    var i := 0;
    while i < |content|
      invariant totalWritten == Min(i, |content|)
      invariant HalfWritten(guest.files, was, name, content, totalWritten)
      invariant i > 0 ==> Writable(path, Min(chunkSize, |content|))
      invariant AllFine(0, |content|, chunkSize, env) == AllFine(i, |content|, chunkSize, env)
      decreases |content| - i
    {
      var end := Min(i + chunkSize, |content|);
      var resp := WriteChunk(guest, path, content, i, end, mode, env(i), cut, was);
      if resp.MicroVMError? || resp.value.status != 0 {
        return MicroVMError;
      }
      totalWritten := totalWritten + resp.value.bytesWritten;
      i := i + chunkSize;
    }
    return Done(totalWritten);
  }

  /** The first chunk of a file truncates it, every later chunk appends. `env` says what the
      guest's file system does to the write of the chunk at each offset. A non-empty content is
      reported as written only if the file holds all of it, and is so reported exactly when every
      chunk's write goes through. */
  method WriteFileAll(guest: Guest, path: seq<byte>, content: seq<byte>, mode: nat, chunkSize: nat,
                      env: nat -> WriteEnv, cut: seq<byte> -> seq<seq<byte>>)
    returns (r: Answer<nat>)
    requires chunkSize > 0 && U32(mode) && (forall i: nat :: env(i).Possible()) && Cuts(cut)
    modifies guest
    ensures SameElsewhere(guest.files, old(guest.files), CString(path))
    ensures content == [] ==>
              var req := WriteRequest(0, mode, path, []);
              if FitsBuffer(EncodeWrite(req))
              then r == Done(0) && guest.files == WriteEffect(old(guest.files), req, env(0)).0
              else r == MicroVMError && guest.files == old(guest.files)
    ensures content != [] ==>
              (r.Done? <==> Writable(path, Min(chunkSize, |content|)) && AllFine(0, |content|, chunkSize, env))
    ensures r.Done? && content != [] ==>
              r.value == |content| && guest.files == old(guest.files)[CString(path) := content]
  {
    if content == [] {
      var resp := WriteFile(guest, path, [], false, mode, env(0), cut);
      return if resp.Done? then Done(resp.value.bytesWritten) else MicroVMError;
    }
    ghost var name, was := CString(path), guest.files;
    r := WriteChunks(guest, path, content, mode, chunkSize, env, cut);
    if r.Done? {
      assert content[..|content|] == content;
      UpdatedThere(guest.files, was, name);
    }
  }

  /** For an empty content the answer's status is not looked at: the host reports 0 bytes written. That
      the file is then there and empty holds exactly when the guest could open it for writing, or when
      it was there and empty before. */
  lemma EmptyWrite(files: Files, path: seq<byte>, mode: nat, env: WriteEnv)
    requires env.Possible()
    ensures var name, after := CString(path), WriteEffect(files, WriteRequest(0, mode, path, []), env).0;
            (name in after && after[name] == []) <==>
              || (0 < |path| < 4096 && name != [] && !env.OpenFails?)
              || (name in files && files[name] == [])
  {
  }

  /** A refused open: the file keeps its old content although 0 is returned without an error. */
  method RefusedOpenIsReportedAsWritten(cut: seq<byte> -> seq<seq<byte>>) returns (r: Answer<nat>, kept: seq<byte>)
    requires Cuts(cut)
    ensures r == Done(0) && kept == [1, 2, 3]
  {
    var path: seq<byte> := ['a' as int];
    assert CString(path[1..]) == [] && CString(path) == path;
    var guest := new Guest(map[path := [1, 2, 3]]);
    r := WriteFileAll(guest, path, [], 0, 1, _ => OpenFails(EACCES), cut);
    kept := guest.files[path];
  }

  // ----- Reading a whole file -----

  /** How many bytes a request for the rest of a file brings. */
  function Delivered(size: nat, have: nat, env: ReadEnv): (n: nat)
    requires have <= size
    ensures n <= size - have && (env.Fine() && have < size ==> n > 0) && (!env.Fine() ==> n == 0)
  {
    if env.Fine() then ReadCount(size - have, WORK_BUFFER, env.Wish()) else 0
  }

  /** What the read loop has in the end, when it has `have` bytes of a file and was told `total`;
      request k is the next one. A failed request ends the loop without an error. */
  function FetchLen(size: nat, total: nat, have: nat, k: nat, env: nat -> ReadEnv): (n: nat)
    requires have <= size
    ensures have <= n <= size
    decreases total - have
  {
    if have >= total then have
    else
      var n := Delivered(size, have, env(k));
      if n == 0 then have else FetchLen(size, total, have + n, k + 1, env)
  }

  /** `read_file_all` on a file that exists. */
  function FetchContent(data: seq<byte>, env: nat -> ReadEnv): (r: Answer<seq<byte>>)
    ensures r.Done? <==> env(0).Fine()
    ensures r.Done? ==> r.value <= data
  {
    var first := FileAnswer(data, 0, WORK_BUFFER, env(0));
    if !env(0).Fine() then MicroVMError
    else Done(data[..FetchLen(|data|, first.totalSize, |first.content|, 1, env)])
  }

  /** The number of requests that a file takes when none of them fails. */
  function Requests(size: nat, have: nat, k: nat, env: nat -> ReadEnv): (n: nat)
    requires have <= size
    ensures n >= k
    decreases size - have
  {
    if have == size then k
    else Requests(size, have + ReadCount(size - have, WORK_BUFFER, env(k).Wish()), k + 1, env)
  }

  /** No request that the file takes fails, and its size is found out if it takes more than one. */
  ghost predicate Undisturbed(size: nat, env: nat -> ReadEnv) {
    var n := Requests(size, ReadCount(size, WORK_BUFFER, env(0).Wish()), 1, env);
    (forall k :: 0 <= k < n ==> env(k).Fine()) && (n > 1 ==> env(0).sized)
  }

  lemma {:induction false} FetchesAll(size: nat, have: nat, k: nat, env: nat -> ReadEnv)
    requires have <= size
    ensures FetchLen(size, size, have, k, env) == size <==>
            forall i :: k <= i < Requests(size, have, k, env) ==> env(i).Fine()
    decreases size - have
  {
    if have < size && env(k).Fine() {
      FetchesAll(size, have + ReadCount(size - have, WORK_BUFFER, env(k).Wish()), k + 1, env);
    }
  }

  lemma {:induction false} FetchStops(size: nat, total: nat, have: nat, k: nat, env: nat -> ReadEnv)
    requires have <= size
    ensures FetchLen(size, total, have, k, env) < if have < total then total + WORK_BUFFER else have + 1
    decreases total - have
  {
    if have < total && env(k).Fine() {
      var n := ReadCount(size - have, WORK_BUFFER, env(k).Wish());
      if n > 0 {
        FetchStops(size, total, have + n, k + 1, env);
      }
    }
  }

  /** A transfer takes one request exactly when the first one brings the whole file. */
  lemma TransferOfOne(size: nat, have: nat, env: nat -> ReadEnv)
    requires have <= size
    ensures Requests(size, have, 1, env) > 1 <==> have < size
    ensures FetchLen(size, 0, have, 1, env) == have
  {
  }

  /** The same about lengths: what the first read brought and what it announced. */
  lemma WholeLength(size: nat, sized: bool, env: nat -> ReadEnv)
    requires env(0).Fine() && sized == env(0).sized
    ensures var have := ReadCount(size, WORK_BUFFER, env(0).Wish());
            FetchLen(size, if sized then size % 0x1_0000_0000 else 0, have, 1, env) == size <==>
            U32(size) && Undisturbed(size, env)
  {
    var have := ReadCount(size, WORK_BUFFER, env(0).Wish());
    var n := Requests(size, have, 1, env);
    if !sized {
      TransferOfOne(size, have, env);
      hide FetchLen, Requests, ReadCount;
    } else if U32(size) {
      FetchesAll(size, have, 1, env);
      hide FetchLen, Requests, ReadCount;
      assert size % 0x1_0000_0000 == size;
    } else {
      FetchStops(size, size % 0x1_0000_0000, have, 1, env);
      hide FetchLen, Requests, ReadCount;
    }
  }

  /** The whole file is returned exactly when its size is below 4 GiB and no request that it takes is
      disturbed. */
  lemma WholeFile(data: seq<byte>, env: nat -> ReadEnv)
    ensures FetchContent(data, env) == Done(data) <==> U32(|data|) && Undisturbed(|data|, env)
  {
    if env(0).Fine() {
      WholeLength(|data|, env(0).sized, env);
      var first, have := FileAnswer(data, 0, WORK_BUFFER, env(0)), ReadCount(|data|, WORK_BUFFER, env(0).Wish());
      assert |first.content| == have;
      var n := FetchLen(|data|, first.totalSize, have, 1, env);
      hide FetchLen, Requests, ReadCount, FileAnswer, Undisturbed;
      assert data[..|data|] == data;
      assert n == |data| <==> data[..n] == data;
    } else {
      hide FetchLen, Requests, ReadCount, FileAnswer;
      assert Requests(|data|, ReadCount(|data|, WORK_BUFFER, env(0).Wish()), 1, env) > 0;
    }
  }

  /** How many bytes of a file arrive, when the first request does not fail. */
  function Arriving(size: nat, env: nat -> ReadEnv): nat {
    var announced := if env(0).Opens? && env(0).sized then size % 0x1_0000_0000 else 0;
    FetchLen(size, announced, ReadCount(size, WORK_BUFFER, env(0).Wish()), 1, env)
  }

  /** Which beginning of the file is returned. */
  lemma WhichBeginning(data: seq<byte>, part: seq<byte>, env: nat -> ReadEnv)
    ensures FetchContent(data, env) == Done(part) <==>
            env(0).Fine() && part <= data && |part| == Arriving(|data|, env)
  {
    if env(0).Fine() {
      var first := FileAnswer(data, 0, WORK_BUFFER, env(0));
      var n := FetchLen(|data|, first.totalSize, |first.content|, 1, env);
      assert |first.content| == ReadCount(|data|, WORK_BUFFER, env(0).Wish());
      assert n == Arriving(|data|, env);
      hide FetchLen, ReadCount, FileAnswer, Arriving;
      assert part <= data && |part| == n <==> part == data[..n];
    }
  }

  /** A file of 1 MiB whose second request cannot open it any more: a quarter of it is returned, and no
      error. */
  lemma SecondRequestFails(data: seq<byte>, env: nat -> ReadEnv)
    requires |data| == 4 * WORK_BUFFER
    requires env(0) == Opens(true, 0, WORK_BUFFER) && env(1) == CannotOpen(EMFILE)
    ensures FetchContent(data, env) == Done(data[..WORK_BUFFER]) && data[..WORK_BUFFER] != data
  {
  }

  /** A file of 4 GiB announces size 0: what the first read gave is returned. */
  lemma FourGiB(data: seq<byte>, env: nat -> ReadEnv)
    requires |data| == 0x1_0000_0000 && env(0) == Opens(true, 0, WORK_BUFFER)
    ensures FetchContent(data, env) == Done(data[..WORK_BUFFER]) && data[..WORK_BUFFER] != data
  {
  }

  /** What a request for the rest of a file brings. */
  lemma RestOfFile(files: Files, path: seq<byte>, have: nat, env: ReadEnv)
    requires 0 < |path| < 4096 && Exists(files, path) && have <= |files[CString(path)]| && env.Possible()
    ensures var data, a := files[CString(path)], ReadAnswer(files, ReadRequest(have, 0, path), env);
            && (a.status == 0 <==> env.Fine())
            && |a.content| == Delivered(|data|, have, env)
            && have + |a.content| <= |data| && data[..have] + a.content == data[..have + |a.content|]
  {
    hide CString;
  }

  lemma FetchStep(size: nat, total: nat, have: nat, k: nat, env: nat -> ReadEnv)
    requires have <= size
    ensures have >= total ==> FetchLen(size, total, have, k, env) == have
    ensures have < total ==>
              var n := Delivered(size, have, env(k));
              FetchLen(size, total, have, k, env)
              == if n == 0 then have else FetchLen(size, total, have + n, k + 1, env)
  {
  }

  /** Reads until as many bytes have come as the first response announced. The announced size minus the
      bytes received decreases with every read, however short the guest's reads are. */
  method ReadFileAll(guest: Guest, path: seq<byte>, env: nat -> ReadEnv, cut: seq<byte> -> seq<seq<byte>>)
    returns (r: Answer<seq<byte>>)
    requires (forall k: nat :: env(k).Possible()) && Cuts(cut)
    ensures r == if 0 < |path| < 4096 && Exists(guest.files, path)
                 then FetchContent(guest.files[CString(path)], env) else MicroVMError
  {
    var first := ReadFile(guest, path, 0, 0, env(0), cut);
    if first.MicroVMError? || first.value.status != 0 {
      return MicroVMError;
    }
    ghost var content := guest.files[CString(path)];
    var data := ReadRest(guest, path, first.value, content, env, cut);
    return data;
  }

  /** One request of that loop. */
  method ReadMore(guest: Guest, path: seq<byte>, have: nat, ghost content: seq<byte>, env: ReadEnv,
                  cut: seq<byte> -> seq<seq<byte>>)
    returns (r: Answer<ReadResponse>)
    requires env.Possible() && Cuts(cut) && have <= |content| && U32(have)
    requires 0 < |path| < 4096 && Exists(guest.files, path) && guest.files[CString(path)] == content
    ensures r.Done? && (r.value.status == 0 <==> env.Fine())
    ensures |r.value.content| == Delivered(|content|, have, env) && have + |r.value.content| <= |content|
    ensures content[..have] + r.value.content == content[..have + |r.value.content|]
  {
    RestOfFile(guest.files, path, have, env);
    hide CString, ReadAnswer, Delivered, Cuts;
    r := ReadFile(guest, path, have, 0, env, cut);
  }

  /** The loop of `read_file_all`. */
  method ReadRest(guest: Guest, path: seq<byte>, first: ReadResponse, ghost content: seq<byte>, env: nat -> ReadEnv,
                  cut: seq<byte> -> seq<seq<byte>>)
    returns (r: Answer<seq<byte>>)
    requires (forall k: nat :: env(k).Possible()) && Cuts(cut)
    requires 0 < |path| < 4096 && Exists(guest.files, path) && guest.files[CString(path)] == content
    requires first.content <= content && U32(first.totalSize)
    ensures r == Done(content[..FetchLen(|content|, first.totalSize, |first.content|, 1, env)])
  {
    hide FetchLen, CString, Exists, Cuts, Delivered;
    var totalSize, data, calls := first.totalSize, first.content, 1;
    ghost var size, goal := |content|, FetchLen(|content|, totalSize, |data|, 1, env);
    while |data| < totalSize
      invariant |data| <= size && data == content[..|data|]
      invariant FetchLen(size, totalSize, |data|, calls, env) == goal
      decreases totalSize - |data|
    {
      FetchStep(size, totalSize, |data|, calls, env);
      var resp := ReadMore(guest, path, |data|, content, env(calls), cut);
      if resp.MicroVMError? {
        return MicroVMError;
      }
      if resp.value.status != 0 || resp.value.content == [] {
        break;
      }
      data := data + resp.value.content;
      calls := calls + 1;
    }
    FetchStep(size, totalSize, |data|, calls, env);
    return Done(data);
  }

  /** What was written in chunks is read back unchanged, whatever the guest's reads of the file and of
      the connection return. */
  method RoundTrip(guest: Guest, path: seq<byte>, content: seq<byte>, mode: nat, chunkSize: nat, wish: nat -> nat,
                   cut: seq<byte> -> seq<seq<byte>>)
    returns (back: Answer<seq<byte>>)
    requires GoodPath(path) && U32(|content|) && U32(mode) && Cuts(cut)
    requires chunkSize > 0 && HEADER_SIZE + 16 + |path| + Min(chunkSize, |content|) <= Framing.BUFFER_CAPACITY
    modifies guest
    ensures back == Done(content) && guest.files == old(guest.files)[path := content]
  {
    NothingFails(0, |content|, chunkSize);
    var written := WriteFileAll(guest, path, content, mode, chunkSize, _ => WriteFine, cut);
    assert written == Done(|content|);
    var env := (k: nat) => Opens(true, 0, wish(k));
    WholeFile(content, env);
    back := ReadFileAll(guest, path, env, cut);
  }

  lemma {:induction false} NothingFails(i: nat, size: nat, chunkSize: nat)
    requires chunkSize > 0
    ensures AllFine(i, size, chunkSize, _ => WriteFine)
    decreases size - i
  {
    if i < size {
      NothingFails(i + chunkSize, size, chunkSize);
    }
  }

  // ----- The same as functions -----

  /** The files after the chunk at offset i and all later ones. */
  function ChunkWrites(files: Files, path: seq<byte>, content: seq<byte>, chunkSize: nat, i: nat): Files
    requires chunkSize > 0
    decreases |content| - i
  {
    if i >= |content| then files
    else
      var end := if i + chunkSize < |content| then i + chunkSize else |content|;
      var req := WriteRequest(if i > 0 then 1 else 0, 0, path, content[i..end]);
      ChunkWrites(WriteEffect(files, req, WriteFine).0, path, content, chunkSize, i + chunkSize)
  }

  /** The chunk size does not matter: any chunking leaves the content under the path, and nothing
      else changes. */
  lemma {:induction false} ChunkSizeIsIrrelevant(files: Files, path: seq<byte>, content: seq<byte>, chunkSize: nat,
                                                 i: nat)
    requires GoodPath(path) && chunkSize > 0 && i < |content|
    requires i > 0 ==> path in files && files[path] == content[..i]
    ensures ChunkWrites(files, path, content, chunkSize, i) == files[path := content]
    decreases |content| - i
  {
    var end := if i + chunkSize < |content| then i + chunkSize else |content|;
    var req := WriteRequest(if i > 0 then 1 else 0, 0, path, content[i..end]);
    var next := WriteEffect(files, req, WriteFine).0;
    assert content[..i] + content[i..end] == content[..end];
    assert next == files[path := content[..end]];
    if end < |content| {
      ChunkSizeIsIrrelevant(next, path, content, chunkSize, i + chunkSize);
    } else {
      assert content[..end] == content;
    }
  }

  /** A request too short for the lengths in its own header is not answered, whatever it asks. */
  lemma MalformedIsIgnored(h: FrameHeader, p: seq<byte>)
    ensures h.opcode == OP_READ_FILE ==> (Answered(Frame(h, p)) <==> DecodeRead(p).Some?)
    ensures h.opcode == OP_WRITE_FILE ==> (Answered(Frame(h, p)) <==> DecodeWrite(p).Some?)
  {
  }
}
