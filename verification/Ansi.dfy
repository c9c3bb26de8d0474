/** The escape-sequence filter of `include/axiom/ansi.hpp`, and what it does to terminal output
    that follows ECMA-48. */
module Ansi {
  import opened Bytes

  datatype State = Ground | Escape | CsiParam | CsiInterm | Osc | OscEsc | EscInterm

  const ESC: byte := 0x1B
  const BEL: byte := 0x07

  /** Line feed, tab and everything from the space on. */
  predicate Visible(b: byte) { b == 0x0A || b == 0x09 || b >= 0x20 }

  predicate Parameter(b: byte) { 0x30 <= b <= 0x3F }
  predicate Intermediate(b: byte) { 0x20 <= b <= 0x2F }
  predicate Final(b: byte) { 0x40 <= b <= 0x7E }

  /** The state after one byte. */
  function Next(st: State, b: byte): State {
    match st
    case Ground => if b == ESC then Escape else Ground
    case Escape =>
      if b == '[' as int then CsiParam
      else if b == ']' as int then Osc
      else if Intermediate(b) then EscInterm
      else Ground
    case CsiParam =>
      if Parameter(b) then CsiParam
      else if Intermediate(b) then CsiInterm
      else if b == ESC then Escape
      else Ground
    case CsiInterm =>
      if Intermediate(b) then CsiInterm
      else if b == ESC then Escape
      else Ground
    case Osc => if b == BEL then Ground else if b == ESC then OscEsc else Osc
    case OscEsc =>
      if b == '\\' as int then Ground
      else if b == '[' as int then CsiParam
      else if b != ESC then Escape
      else OscEsc
    case EscInterm => Ground
  }

  predicate Emits(st: State, b: byte) { st == Ground && Visible(b) }

  function EndState(st: State, s: seq<byte>): State
    decreases s
  {
    if s == [] then st else EndState(Next(st, s[0]), s[1..])
  }

  /** What the filter lets through, with room for all of it. */
  function Through(st: State, s: seq<byte>): (t: seq<byte>)
    ensures |t| <= |s|
    decreases s
  {
    if s == [] then []
    else (if Emits(st, s[0]) then [s[0]] else []) + Through(Next(st, s[0]), s[1..])
  }

  function Strip(s: seq<byte>): seq<byte> { Through(Ground, s) }

  function Take<T>(s: seq<T>, n: nat): seq<T> { if |s| <= n then s else s[..n] }

  class AnsiFilter {
    var state: State

    constructor ()
      ensures state == Ground
    {
      state := Ground;
    }

    method Reset()
      modifies this
      ensures state == Ground
    {
      state := Ground;
    }

    /** One byte: the state moves on, and a visible byte of the text goes out while there is room. */
    method ProcessByte(b: byte, out: array<byte>, outIdx: nat) returns (n: nat)
      requires outIdx <= out.Length
      modifies this, out
      ensures state == Next(old(state), b)
      ensures n == (if Emits(old(state), b) && outIdx < out.Length then outIdx + 1 else outIdx)
      ensures out[..n] == old(out[..outIdx]) + (if n > outIdx then [b] else [])
    {
      n := outIdx;
      match state {
        case Ground =>
          if b == ESC {
            state := Escape;
          } else if b == 0x0D {
          } else if b == 0x0A || b == 0x09 || b >= 0x20 {
            if outIdx < out.Length {
              out[outIdx] := b;
              n := outIdx + 1;
            }
          }
        case Escape =>
          if b == '[' as int {
            state := CsiParam;
          } else if b == ']' as int {
            state := Osc;
          } else if b >= 0x20 && b <= 0x2F {
            state := EscInterm;
          } else {
            state := Ground;
          }
        case CsiParam =>
          if b >= 0x30 && b <= 0x3F {
          } else if b >= 0x20 && b <= 0x2F {
            state := CsiInterm;
          } else if b >= 0x40 && b <= 0x7E {
            state := Ground;
          } else if b == ESC {
            state := Escape;
          } else {
            state := Ground;
          }
        case CsiInterm =>
          if b >= 0x20 && b <= 0x2F {
          } else if b >= 0x40 && b <= 0x7E {
            state := Ground;
          } else if b == ESC {
            state := Escape;
          } else {
            state := Ground;
          }
        case Osc =>
          if b == BEL {
            state := Ground;
          } else if b == ESC {
            state := OscEsc;
          }
        case OscEsc =>
          if b == '\\' as int {
            state := Ground;
          } else if b == '[' as int {
            state := CsiParam;
          } else if b != ESC {
            state := Escape;
          }
        case EscInterm =>
          state := Ground;
      }
    }

    /** The output is as much of the filtered input as fits, from its beginning on; the state is
        carried to the next call and does not depend on the room. */
    method Filter(input: seq<byte>, out: array<byte>) returns (n: nat)
      modifies this, out
      ensures n <= out.Length && out[..n] == Take(Through(old(state), input), out.Length)
      ensures state == EndState(old(state), input)
    {
      n := 0;
      for i := 0 to |input|
        invariant n <= out.Length
        invariant EndState(state, input[i..]) == EndState(old(state), input)
        invariant Take(out[..n] + Through(state, input[i..]), out.Length)
               == Take(Through(old(state), input), out.Length)
      {
        FilterStep(out[..n], state, input, i, out.Length);
        n := ProcessByte(input[i], out, n);
      }
      assert out[..n] + Through(state, []) == out[..n];
    }
  }

  /** A byte that does not fit makes no difference, nor does what follows it. */
  lemma FilterStep(out: seq<byte>, st: State, input: seq<byte>, i: nat, cap: nat)
    requires i < |input| && |out| <= cap
    ensures var b := input[i];
      && EndState(st, input[i..]) == EndState(Next(st, b), input[i + 1..])
      && Take(out + Through(st, input[i..]), cap)
      == Take(out + (if Emits(st, b) && |out| < cap then [b] else []) + Through(Next(st, b), input[i + 1..]), cap)
  {
    hide Next, Emits;
    assert input[i..][0] == input[i] && input[i..][1..] == input[i + 1..];
    var rest := Through(Next(st, input[i]), input[i + 1..]);
    if Emits(st, input[i]) {
      assert out + Through(st, input[i..]) == out + [input[i]] + rest;
    } else {
      assert Through(st, input[i..]) == rest && out + [] == out;
    }
  }

  // ----- Incremental filtering -----

  /** Filtering a concatenation is filtering the parts with the carried state. */
  lemma {:induction false} Incremental(st: State, a: seq<byte>, b: seq<byte>)
    ensures EndState(st, a + b) == EndState(EndState(st, a), b)
    ensures Through(st, a + b) == Through(st, a) + Through(EndState(st, a), b)
    decreases |a|
  {
    hide Next;
    if a == [] {
      assert a + b == b;
    } else {
      assert (a + b)[1..] == a[1..] + b;
      Incremental(Next(st, a[0]), a[1..], b);
    }
  }

  predicate AllVisible(s: seq<byte>) { forall i :: 0 <= i < |s| ==> Visible(s[i]) }

  /** a is what remains of b after deleting some of its elements. */
  predicate Subsequence<T(==)>(a: seq<T>, b: seq<T>)
    decreases b
  {
    if a == [] then true
    else b != [] && ((a[0] == b[0] && Subsequence(a[1..], b[1..])) || Subsequence(a, b[1..]))
  }

  /** The filter only deletes, and leaves nothing but visible bytes. */
  lemma {:induction false} ThroughOnlyDeletes(st: State, s: seq<byte>)
    ensures Subsequence(Through(st, s), s) && AllVisible(Through(st, s))
    decreases |s|
  {
    if s != [] {
      ThroughOnlyDeletes(Next(st, s[0]), s[1..]);
      var rest := Through(Next(st, s[0]), s[1..]);
      if Emits(st, s[0]) {
        assert Through(st, s)[0] == s[0] && Through(st, s)[1..] == rest;
      } else {
        assert Through(st, s) == rest;
        assert rest != [] ==> Subsequence(rest, s[1..]);
      }
    }
  }

  /** From Ground the filter leaves a byte string as it is exactly when every byte is visible. */
  lemma {:induction false} StripFixpoint(s: seq<byte>)
    ensures Strip(s) == s <==> AllVisible(s)
    ensures AllVisible(s) ==> EndState(Ground, s) == Ground
    decreases |s|
  {
    if s != [] {
      StripFixpoint(s[1..]);
      if Visible(s[0]) {
        assert Strip(s) == [s[0]] + Strip(s[1..]);
        assert Strip(s)[1..] == Strip(s[1..]);
        assert s == [s[0]] + s[1..];
      } else {
        assert |Strip(s)| <= |s| - 1;
      }
    }
  }

  /** Stripping twice is stripping once. */
  lemma StripIdempotent(s: seq<byte>)
    ensures Strip(Strip(s)) == Strip(s)
  {
    ThroughOnlyDeletes(Ground, s);
    StripFixpoint(Strip(s));
  }

  /** Dropping a beginning of the output is harmless, for everything that may follow, exactly
      when the beginning ends between escape sequences. */
  lemma CleanCut(dropped: seq<byte>)
    ensures (forall rest :: Strip(dropped + rest) == Strip(dropped) + Strip(rest))
            <==> EndState(Ground, dropped) == Ground
  {
    var st := EndState(Ground, dropped);
    if st == Ground {
      forall rest ensures Strip(dropped + rest) == Strip(dropped) + Strip(rest) {
        Incremental(Ground, dropped, rest);
      }
    } else {
      var rest: seq<byte> := ['A' as int];
      Incremental(Ground, dropped, rest);
      assert Through(st, rest) == [];
      assert Strip(rest) == rest;
      assert |Strip(dropped + rest)| != |Strip(dropped) + Strip(rest)|;
    }
  }

  // ----- Terminal output -----

  /** What a program writes to a terminal: text, other controls, and the escape sequences of
      ECMA-48 (sections 5.4 and 5.6) that the filter follows. */
  datatype Token =
    | Text(b: byte)
    | Control(b: byte)
    | Csi(params: seq<byte>, interms: seq<byte>, final: byte)
    | OscBel(body: seq<byte>)
    | OscSt(body: seq<byte>)
    | TwoByte(b: byte)
    | OneInterm(interm: byte, b: byte)
  {
    predicate WellFormed() {
      match this
      case Text(b) => Visible(b)
      case Control(b) => b < 0x20 && !Visible(b) && b != ESC
      case Csi(params, interms, final) =>
        && (forall i :: 0 <= i < |params| ==> Parameter(params[i]))
        && (forall i :: 0 <= i < |interms| ==> Intermediate(interms[i]))
        && Final(final)
      case OscBel(body) => OscBody(body)
      case OscSt(body) => OscBody(body)
      case TwoByte(b) => 0x30 <= b <= 0x7E && b != '[' as int && b != ']' as int
      case OneInterm(interm, b) => Intermediate(interm) && 0x30 <= b <= 0x7E
    }

    function Render(): seq<byte> {
      match this
      case Text(b) => [b]
      case Control(b) => [b]
      case Csi(params, interms, final) => [ESC, '[' as int] + params + interms + [final]
      case OscBel(body) => [ESC, ']' as int] + body + [BEL]
      case OscSt(body) => [ESC, ']' as int] + body + [ESC, '\\' as int]
      case TwoByte(b) => [ESC, b]
      case OneInterm(interm, b) => [ESC, interm, b]
    }

    function TextOf(): seq<byte> { if Text? then [b] else [] }
  }

  predicate OscBody(body: seq<byte>) { forall i :: 0 <= i < |body| ==> body[i] != BEL && body[i] != ESC }

  function RenderAll(ts: seq<Token>): seq<byte>
    decreases ts
  {
    if ts == [] then [] else ts[0].Render() + RenderAll(ts[1..])
  }

  function TextOfAll(ts: seq<Token>): seq<byte>
    decreases ts
  {
    if ts == [] then [] else ts[0].TextOf() + TextOfAll(ts[1..])
  }

  /** Bytes that leave a state other than Ground where it is are swallowed. */
  lemma {:induction false} Swallowed(st: State, s: seq<byte>)
    requires st != Ground && forall i :: 0 <= i < |s| ==> Next(st, s[i]) == st
    ensures EndState(st, s) == st && Through(st, s) == []
    decreases |s|
  {
    if s != [] {
      Swallowed(st, s[1..]);
    }
  }

  /** Intermediate bytes of a control sequence. */
  lemma {:induction false} IntermsSwallowed(st: State, s: seq<byte>)
    requires st == CsiParam || st == CsiInterm
    requires forall i :: 0 <= i < |s| ==> Intermediate(s[i])
    ensures EndState(st, s) == (if s == [] then st else CsiInterm) && Through(st, s) == []
    decreases |s|
  {
    if s != [] {
      IntermsSwallowed(CsiInterm, s[1..]);
    }
  }

  lemma OpeningSwallowed(b: byte)
    ensures EndState(Ground, [ESC, b]) == Next(Escape, b) && Through(Ground, [ESC, b]) == []
  {
    assert [ESC, b][1..] == [b];
    assert EndState(Escape, [b]) == Next(Escape, b);
    assert Through(Escape, [b]) == [];
  }

  lemma CsiStripped(params: seq<byte>, interms: seq<byte>, final: byte)
    requires Csi(params, interms, final).WellFormed()
    ensures var s := [ESC, '[' as int] + params + interms + [final]; Strip(s) == [] && EndState(Ground, s) == Ground
  {
    var opening := [ESC, '[' as int];
    OpeningSwallowed('[' as int);
    Swallowed(CsiParam, params);
    IntermsSwallowed(CsiParam, interms);
    Incremental(Ground, opening, params);
    Incremental(Ground, opening + params, interms);
    Incremental(Ground, opening + params + interms, [final]);
  }

  lemma OscStripped(body: seq<byte>, end: seq<byte>)
    requires OscBody(body) && (end == [BEL] || end == [ESC, '\\' as int])
    ensures var s := [ESC, ']' as int] + body + end; Strip(s) == [] && EndState(Ground, s) == Ground
  {
    var opening := [ESC, ']' as int];
    OpeningSwallowed(']' as int);
    Swallowed(Osc, body);
    OscEnds(end);
    Incremental(Ground, opening, body);
    Incremental(Ground, opening + body, end);
  }

  lemma OscEnds(end: seq<byte>)
    requires end == [BEL] || end == [ESC, '\\' as int]
    ensures EndState(Osc, end) == Ground && Through(Osc, end) == []
  {
    if |end| == 2 {
      assert end[1..] == ['\\' as int];
      assert EndState(OscEsc, end[1..]) == Ground && Through(OscEsc, end[1..]) == [];
    }
  }

  lemma TokenStripped(t: Token)
    requires t.WellFormed()
    ensures Strip(t.Render()) == t.TextOf() && EndState(Ground, t.Render()) == Ground
  {
    match t
    case Text(b) =>
    case Control(b) =>
    case Csi(params, interms, final) => CsiStripped(params, interms, final);
    case OscBel(body) => OscStripped(body, [BEL]);
    case OscSt(body) => OscStripped(body, [ESC, '\\' as int]);
    case TwoByte(b) => OpeningSwallowed(b);
    case OneInterm(interm, b) =>
      OpeningSwallowed(interm);
      Incremental(Ground, [ESC, interm], [b]);
      assert [ESC, interm] + [b] == t.Render();
  }

  /** Stripping undoes rendering: exactly the text comes out, in order, and the filter is ready
      for more text. */
  lemma {:induction false} StripUndoesRender(ts: seq<Token>)
    requires forall i :: 0 <= i < |ts| ==> ts[i].WellFormed()
    ensures Strip(RenderAll(ts)) == TextOfAll(ts) && EndState(Ground, RenderAll(ts)) == Ground
    decreases |ts|
  {
    if ts != [] {
      TokenStripped(ts[0]);
      Incremental(Ground, ts[0].Render(), RenderAll(ts[1..]));
      StripUndoesRender(ts[1..]);
    }
  }
}
