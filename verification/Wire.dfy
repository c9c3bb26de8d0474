/** TDS-Wire headers: `include/axiom/wire.hpp` on the guest, `host/axiom/wire.py` on the host. */
module Wire {
  import opened Bytes

  const WIRE_MAGIC: nat := 0xAA55
  const HEADER_SIZE: nat := 12

  datatype Result<+T> = Ok(value: T) | Err(error: SystemError)

  datatype SystemError = BufferUnderflow | ProtocolError

  datatype FrameHeader = FrameHeader(magic: nat, opcode: nat, requestId: nat, payloadLen: nat) {
    predicate Fits() {
      U16(magic) && U16(opcode) && U32(requestId) && U32(payloadLen)
    }
  }

  datatype Frame = Frame(header: FrameHeader, payload: seq<byte>)

  /** Twelve packed bytes: magic, opcode, request id, payload length. */
  function EncodeHeader(h: FrameHeader): (s: seq<byte>)
    ensures |s| == HEADER_SIZE
  {
    LE(h.magic, 2) + LE(h.opcode, 2) + LE(h.requestId, 4) + LE(h.payloadLen, 4)
  }

  function DecodeHeader(s: seq<byte>): Result<FrameHeader> {
    if |s| < HEADER_SIZE then Err(BufferUnderflow)
    else
      var h := FrameHeader(FromLE(s[0..2]), FromLE(s[2..4]), FromLE(s[4..8]), FromLE(s[8..12]));
      if h.magic != WIRE_MAGIC then Err(ProtocolError) else Ok(h)
  }

  /** The host's `encode_frame`: a header that carries the payload's length, then the payload. */
  function EncodeFrame(opcode: nat, requestId: nat, payload: seq<byte>): seq<byte> {
    EncodeHeader(FrameHeader(WIRE_MAGIC, opcode, requestId, |payload|)) + payload
  }

  /** Decoding reads the first twelve bytes and nothing else. */
  lemma DecodeHeaderPrefix(s: seq<byte>, t: seq<byte>)
    requires |s| >= HEADER_SIZE
    ensures DecodeHeader(s + t) == DecodeHeader(s)
  {
    assert (s + t)[0..2] == s[0..2] && (s + t)[2..4] == s[2..4];
    assert (s + t)[4..8] == s[4..8] && (s + t)[8..12] == s[8..12];
  }

  lemma HeaderRoundTrip(h: FrameHeader, rest: seq<byte>)
    requires h.Fits() && h.magic == WIRE_MAGIC
    ensures DecodeHeader(EncodeHeader(h) + rest) == Ok(h)
  {
    var s := EncodeHeader(h);
    Joined4(LE(h.magic, 2), LE(h.opcode, 2), LE(h.requestId, 4), LE(h.payloadLen, 4));
    hide LE, FromLE;
    assert s[8..12] == s[8..];
    RoundTrip16(h.magic);
    RoundTrip16(h.opcode);
    RoundTrip32(h.requestId);
    RoundTrip32(h.payloadLen);
    DecodeHeaderPrefix(s, rest);
  }

  /** A header is accepted if and only if it has twelve bytes and begins with the bytes 55 and AA; too few
      bytes and a wrong magic are told apart. */
  lemma HeaderAccepted(s: seq<byte>)
    ensures DecodeHeader(s).Ok? <==> |s| >= 12 && s[0] == 0x55 && s[1] == 0xAA
    ensures DecodeHeader(s) == Err(BufferUnderflow) <==> |s| < 12
  {
    if |s| >= 12 {
      var m := s[0..2];
      assert m[1..][1..] == [] && m[1..][0] == s[1];
      var low: int, high: int := s[0], s[1];
      assert FromLE(m[1..]) == high;
      assert FromLE(m) == low + 256 * high;
    }
  }

  const OP_READ_FILE: nat := 0x0040
  const OP_READ_FILE_RESPONSE: nat := 0x0041
  const OP_WRITE_FILE: nat := 0x0042
  const OP_WRITE_FILE_RESPONSE: nat := 0x0043
  const OP_SHUTDOWN: nat := 0x00FF

  /** Little-endian field of a payload; callers check the length first. */
  function Field(p: seq<byte>, at: nat, len: nat): nat
    requires at + len <= |p|
  {
    FromLE(p[at..at + len])
  }

  /** Whether `dispatch_frame` reaches a response write: the opcode has a handler and
      the payload is long enough for the lengths that its own header announces. */
  predicate Answered(f: Frame) {
    var p := f.payload;
    match f.header.opcode
    case 0x0001 => true  // Ping
    case 0x0010 => |p| >= 12 && |p| >= 12 + Field(p, 8, 2) + Field(p, 10, 2)  // Exec
    case 0x0020 => |p| >= 4 && |p| >= 4 + Field(p, 0, 4)  // AstSymbols
    case 0x0021 => |p| >= 4 && |p| >= 4 + Field(p, 0, 2) + Field(p, 2, 2)  // AstSlice
    case 0x0022 => |p| >= 8 && |p| >= 8 + Field(p, 0, 2) + Field(p, 2, 2) + Field(p, 4, 4)  // AstPatch
    case 0x0030 => |p| >= 12 && |p| >= 12 + Field(p, 8, 2) + Field(p, 10, 2)  // CdpAction
    case 0x0040 => |p| >= 12 && |p| >= 12 + Field(p, 8, 2)  // ReadFile
    case 0x0042 => |p| >= 16 && |p| >= 16 + Field(p, 8, 2) + Field(p, 12, 4)  // WriteFile
    case _ => false
  }
}
