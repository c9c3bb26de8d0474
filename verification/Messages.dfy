/** The requests that `host/axiom/wire.py` encodes, against `dispatch_frame` of `include/axiom/server.hpp`:
    which of them are answered, and that no shorter payload is. */
module Messages {
  import opened Bytes
  import opened Wire

  const OP_PING: nat := 0x0001
  const OP_EXEC: nat := 0x0010
  const OP_AST_SYMBOLS: nat := 0x0020
  const OP_AST_SLICE: nat := 0x0021
  const OP_AST_PATCH: nat := 0x0022
  const OP_CDP_ACTION: nat := 0x0030

  type bytes = seq<byte>

  function EncodeExec(flags: nat, timeout: nat, command: bytes, cwd: bytes): bytes {
    LE(flags, 4) + LE(timeout, 4) + LE(|command|, 2) + LE(|cwd|, 2) + command + cwd
  }

  function EncodeSymbols(path: bytes): bytes { LE(|path|, 4) + path }

  function EncodeSlice(path: bytes, symbol: bytes): bytes { LE(|path|, 2) + LE(|symbol|, 2) + path + symbol }

  function EncodePatch(path: bytes, symbol: bytes, replacement: bytes): bytes {
    LE(|path|, 2) + LE(|symbol|, 2) + LE(|replacement|, 4) + path + symbol + replacement
  }

  /** `scroll` is the unsigned reading of the signed 32-bit field. */
  function EncodeCdp(action: nat, flags: nat, target: nat, scroll: nat, text1: bytes, text2: bytes): bytes {
    LE(action, 1) + LE(flags, 1) + LE(target, 2) + LE(scroll, 4) + LE(|text1|, 2) + LE(|text2|, 2) + text1 + text2
  }

  /** A payload that is cut short, or has something behind it, or neither. */
  predicate CutOrLonger(q: bytes, p: bytes) { q <= p || p <= q }

  /** A field of a payload that reaches behind it. */
  lemma FieldIn(q: bytes, p: bytes, front: bytes, value: nat, len: nat, back: bytes)
    requires p == front + LE(value, len) + back && CutOrLonger(q, p) && |front| + len <= |q| && value < Pow256(len)
    ensures Field(q, |front|, len) == value
  {
    FromLEOfLE(value, len);
    var at := |front|;
    assert p[at..at + len] == LE(value, len);
    hide LE, FromLE;
    assert q[at..at + len] == p[at..at + len];
  }

  /** An exec request is answered if and only if it is there in full; more bytes do not matter. */
  lemma ExecAnswered(f: Frame, flags: nat, timeout: nat, command: bytes, cwd: bytes)
    requires f.header.opcode == OP_EXEC && U16(|command|) && U16(|cwd|)
    requires CutOrLonger(f.payload, EncodeExec(flags, timeout, command, cwd))
    ensures Answered(f) <==> EncodeExec(flags, timeout, command, cwd) <= f.payload
  {
    PowersOf256();
    hide LE, FromLE;
    var p, q := EncodeExec(flags, timeout, command, cwd), f.payload;
    var a, b, c, d := LE(flags, 4), LE(timeout, 4), LE(|command|, 2), LE(|cwd|, 2);
    if |q| >= 12 {
      assert p == (a + b) + c + (d + command + cwd) && p == (a + b + c) + d + (command + cwd);
      FieldIn(q, p, a + b, |command|, 2, d + command + cwd);
      FieldIn(q, p, a + b + c, |cwd|, 2, command + cwd);
    }
    Whole(q, p);
  }

  lemma Whole(q: bytes, p: bytes)
    requires CutOrLonger(q, p)
    ensures |p| <= |q| <==> p <= q
  {
  }

  lemma SymbolsAnswered(f: Frame, path: bytes)
    requires f.header.opcode == OP_AST_SYMBOLS && U32(|path|) && CutOrLonger(f.payload, EncodeSymbols(path))
    ensures Answered(f) <==> EncodeSymbols(path) <= f.payload
  {
    PowersOf256();
    hide LE, FromLE;
    var p, q := EncodeSymbols(path), f.payload;
    if |q| >= 4 {
      assert p == [] + LE(|path|, 4) + path;
      FieldIn(q, p, [], |path|, 4, path);
    }
    Whole(q, p);
  }

  lemma SliceAnswered(f: Frame, path: bytes, symbol: bytes)
    requires f.header.opcode == OP_AST_SLICE && U16(|path|) && U16(|symbol|)
    requires CutOrLonger(f.payload, EncodeSlice(path, symbol))
    ensures Answered(f) <==> EncodeSlice(path, symbol) <= f.payload
  {
    PowersOf256();
    hide LE, FromLE;
    var p, q, a, b := EncodeSlice(path, symbol), f.payload, LE(|path|, 2), LE(|symbol|, 2);
    if |q| >= 4 {
      assert p == [] + a + (b + path + symbol) && p == a + b + (path + symbol);
      FieldIn(q, p, [], |path|, 2, b + path + symbol);
      FieldIn(q, p, a, |symbol|, 2, path + symbol);
    }
    Whole(q, p);
  }

  lemma PatchAnswered(f: Frame, path: bytes, symbol: bytes, replacement: bytes)
    requires f.header.opcode == OP_AST_PATCH && U16(|path|) && U16(|symbol|) && U32(|replacement|)
    requires CutOrLonger(f.payload, EncodePatch(path, symbol, replacement))
    ensures Answered(f) <==> EncodePatch(path, symbol, replacement) <= f.payload
  {
    PowersOf256();
    hide LE, FromLE;
    var p, q := EncodePatch(path, symbol, replacement), f.payload;
    var a, b, c := LE(|path|, 2), LE(|symbol|, 2), LE(|replacement|, 4);
    var tail := path + symbol + replacement;
    if |q| >= 8 {
      assert p == [] + a + (b + c + tail) && p == a + b + (c + tail) && p == (a + b) + c + tail;
      FieldIn(q, p, [], |path|, 2, b + c + tail);
      FieldIn(q, p, a, |symbol|, 2, c + tail);
      FieldIn(q, p, a + b, |replacement|, 4, tail);
    }
    Whole(q, p);
  }

  lemma CdpAnswered(f: Frame, action: nat, flags: nat, target: nat, scroll: nat, text1: bytes, text2: bytes)
    requires f.header.opcode == OP_CDP_ACTION && U16(|text1|) && U16(|text2|)
    requires CutOrLonger(f.payload, EncodeCdp(action, flags, target, scroll, text1, text2))
    ensures Answered(f) <==> EncodeCdp(action, flags, target, scroll, text1, text2) <= f.payload
  {
    PowersOf256();
    hide LE, FromLE;
    var p, q := EncodeCdp(action, flags, target, scroll, text1, text2), f.payload;
    var front := LE(action, 1) + LE(flags, 1) + LE(target, 2) + LE(scroll, 4);
    var c, d := LE(|text1|, 2), LE(|text2|, 2);
    if |q| >= 12 {
      assert p == front + c + (d + text1 + text2) && p == (front + c) + d + (text1 + text2);
      FieldIn(q, p, front, |text1|, 2, d + text1 + text2);
      FieldIn(q, p, front + c, |text2|, 2, text1 + text2);
    }
    Whole(q, p);
  }

  /** A ping is always answered; the other opcodes that have no handler never are. */
  lemma PingAnswered(f: Frame)
    ensures f.header.opcode == OP_PING ==> Answered(f)
    ensures Answered(f) ==>
              f.header.opcode in {OP_PING, OP_EXEC, OP_AST_SYMBOLS, OP_AST_SLICE, OP_AST_PATCH, OP_CDP_ACTION,
                                  OP_READ_FILE, OP_WRITE_FILE}
  {
  }
}
