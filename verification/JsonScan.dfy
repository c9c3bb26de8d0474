/** The brace, quote and escape scanner of `AXTreeFilter::filter_and_format` in
    `include/axiom/cdp.hpp`, and JSON text per sections 2 to 5 and 7 of RFC 8259. */
module JsonScan {

  // ----- The scanner -----

  /** `depth`, `in_str` and `esc` of the inner loop. */
  datatype Scan = Scan(depth: nat, inStr: bool, esc: bool)

  const START: Scan := Scan(0, false, false)

  /** Whether this character ends the object. */
  predicate Closes(st: Scan, c: char) { !st.esc && !st.inStr && c == '}' && st.depth == 1 }

  function ScanStep(st: Scan, c: char): Scan {
    if st.esc then st.(esc := false)
    else if c == '\\' then st.(esc := true)
    else if c == '"' then st.(inStr := !st.inStr)
    else if st.inStr then st
    else if c == '{' then st.(depth := st.depth + 1)
    else if c == '}' && st.depth > 0 then st.(depth := st.depth - 1)
    else st
  }

  /** How many characters the inner loop takes from st on. */
  function ObjLen(s: string, st: Scan): (n: nat)
    ensures n <= |s| && (s != [] ==> n > 0)
    decreases |s|
  {
    if s == [] then 0
    else if Closes(st, s[0]) then 1
    else 1 + ObjLen(s[1..], ScanStep(st, s[0]))
  }

  /** How many characters the outer loop skips to the next '{' or ']'. */
  function SkipLen(s: string): (n: nat)
    ensures n <= |s| && (n < |s| ==> s[n] == '{' || s[n] == ']')
    ensures forall i :: 0 <= i < n ==> s[i] != '{' && s[i] != ']'
    decreases |s|
  {
    if s == [] || s[0] == '{' || s[0] == ']' then 0 else 1 + SkipLen(s[1..])
  }

  /** The object text that starts at k, and what follows it. */
  function ObjectAt(s: string, k: nat): string
    requires k < |s|
  {
    s[k..k + ObjLen(s[k..], START)]
  }

  function After(s: string, k: nat): (t: string)
    requires k < |s|
    ensures |t| < |s|
  {
    s[k + ObjLen(s[k..], START)..]
  }

  /** The object texts that the outer loop cuts out, in order. */
  function Slices(s: string): seq<string>
    decreases |s|
  {
    if SkipLen(s) == |s| || s[SkipLen(s)] == ']' then []
    else [ObjectAt(s, SkipLen(s))] + Slices(After(s, SkipLen(s)))
  }

  // ----- JSON text -----

  datatype StrItem = Plain(c: char) | Esc(c: char) | Uni(hex: string)

  /** Values, with the white space that section 2 allows around the structural characters. */
  datatype Json =
    | Lit(text: string)
    | Str(items: seq<StrItem>)
    | Arr(elems: Elems)
    | Obj(members: Members)

  datatype Elems = NoElems(ws: string) | Elem(before: string, value: Json, after: string, rest: Elems)

  datatype Members =
    | NoMembers(ws: string)
    | Member(before: string, key: seq<StrItem>, mid: string, sep: string, value: Json, after: string, rest: Members)

  predicate White(s: string) {
    forall i :: 0 <= i < |s| ==> s[i] == ' ' || s[i] == '\t' || s[i] == '\n' || s[i] == '\r'
  }

  predicate ItemOk(i: StrItem) {
    match i
    case Plain(c) => c >= ' ' && c != '"' && c != '\\'
    case Esc(c) => c in "\"\\/bfnrt"
    case Uni(hex) => |hex| == 4 && forall k :: 0 <= k < 4 ==> HexChar(hex[k])
  }

  predicate ItemsOk(items: seq<StrItem>) { forall k :: 0 <= k < |items| ==> ItemOk(items[k]) }

  /** Numbers and the three literal names: none of their characters is structural. */
  predicate LitOk(text: string) {
    text != [] && forall k :: 0 <= k < |text| ==> LitChar(text[k])
  }

  predicate LitChar(c: char) { c in "-+.E" || '0' <= c <= '9' || 'a' <= c <= 'z' }

  predicate HexChar(c: char) { '0' <= c <= '9' || 'a' <= c <= 'f' || 'A' <= c <= 'F' }

  predicate JsonOk(v: Json)
    decreases v
  {
    match v
    case Lit(text) => LitOk(text)
    case Str(items) => ItemsOk(items)
    case Arr(elems) => ElemsOk(elems)
    case Obj(members) => MembersOk(members)
  }

  predicate ElemsOk(e: Elems)
    decreases e
  {
    match e
    case NoElems(ws) => White(ws)
    case Elem(before, value, after, rest) => White(before) && JsonOk(value) && White(after) && ElemsOk(rest)
  }

  predicate MembersOk(m: Members)
    decreases m
  {
    match m
    case NoMembers(ws) => White(ws)
    case Member(before, key, mid, sep, value, after, rest) =>
      White(before) && ItemsOk(key) && White(mid) && White(sep) && JsonOk(value) && White(after) && MembersOk(rest)
  }

  function PrintItem(i: StrItem): string {
    match i
    case Plain(c) => [c]
    case Esc(c) => ['\\', c]
    case Uni(hex) => ['\\', 'u'] + hex
  }

  function PrintItems(items: seq<StrItem>): string
    decreases items
  {
    if items == [] then [] else PrintItem(items[0]) + PrintItems(items[1..])
  }

  function PrintString(items: seq<StrItem>): string { ['"'] + PrintItems(items) + ['"'] }

  function Print(v: Json): string
    decreases v
  {
    match v
    case Lit(text) => text
    case Str(items) => PrintString(items)
    case Arr(elems) => ['['] + PrintElems(elems) + [']']
    case Obj(members) => ['{'] + PrintMembers(members) + ['}']
  }

  /** The comma stands between elements only. */
  function PrintElems(e: Elems): string
    decreases e
  {
    match e
    case NoElems(ws) => ws
    case Elem(before, value, after, rest) =>
      before + Print(value) + after + (if rest.Elem? then [','] else []) + PrintElems(rest)
  }

  function PrintMembers(m: Members): string
    decreases m
  {
    match m
    case NoMembers(ws) => ws
    case Member(before, key, mid, sep, value, after, rest) =>
      before + PrintString(key) + mid + [':'] + sep + Print(value) + after
      + (if rest.Member? then [','] else []) + PrintMembers(rest)
  }

  // ----- What scanning JSON text does -----

  /** From inside an object, the scanner passes over s and is back where it was. */
  ghost predicate Passes(s: string, inStr: bool) {
    forall d: nat, t: string :: d >= 1 ==> Passed(s, inStr, d, t)
  }

  /** At one depth, in front of one text. */
  predicate Passed(s: string, inStr: bool, d: nat, t: string) {
    ObjLen(s + t, Scan(d, inStr, false)) == |s| + ObjLen(t, Scan(d, inStr, false))
  }

  lemma PassesAt(s: string, inStr: bool, d: nat, t: string)
    requires Passes(s, inStr) && d >= 1
    ensures Passed(s, inStr, d, t)
  {
  }

  lemma BothPassed(a: string, b: string, inStr: bool, d: nat, t: string)
    requires Passed(a, inStr, d, b + t) && Passed(b, inStr, d, t)
    ensures Passed(a + b, inStr, d, t)
  {
    hide ObjLen;
    assert a + b + t == a + (b + t);
  }

  lemma PassesBoth(a: string, b: string, inStr: bool)
    requires Passes(a, inStr) && Passes(b, inStr)
    ensures Passes(a + b, inStr)
  {
    hide Passed;
    forall d: nat, t: string | d >= 1 ensures Passed(a + b, inStr, d, t) {
      PassesAt(a, inStr, d, b + t);
      PassesAt(b, inStr, d, t);
      BothPassed(a, b, inStr, d, t);
    }
  }

  lemma PassesEmpty(inStr: bool)
    ensures Passes([], inStr)
  {
    forall d: nat, t: string | d >= 1 ensures Passed([], inStr, d, t) {
      assert [] + t == t;
    }
  }

  /** A character that the scanner ignores. */
  lemma PassesChar(c: char, inStr: bool)
    requires c != '"' && c != '\\' && (!inStr ==> c != '{' && c != '}')
    ensures Passes([c], inStr)
  {
    forall d: nat, t: string | d >= 1 ensures Passed([c], inStr, d, t) {
      assert ([c] + t)[1..] == t;
    }
  }

  lemma {:induction false} PassesPlain(s: string, inStr: bool)
    requires forall i :: 0 <= i < |s| ==> s[i] != '"' && s[i] != '\\' && (!inStr ==> s[i] != '{' && s[i] != '}')
    ensures Passes(s, inStr)
    decreases |s|
  {
    hide Passes;
    if s == [] {
      PassesEmpty(inStr);
    } else {
      PassesChar(s[0], inStr);
      PassesPlain(s[1..], inStr);
      PassesBoth([s[0]], s[1..], inStr);
      assert [s[0]] + s[1..] == s;
    }
  }

  /** A backslash takes the next character with it, inside a string as outside. */
  lemma PassesEscape(c: char, inStr: bool)
    ensures Passes(['\\', c], inStr)
  {
    forall d: nat, t: string | d >= 1 ensures Passed(['\\', c], inStr, d, t) {
      var s := ['\\', c] + t;
      assert s[1..] == [c] + t && s[1..][1..] == t;
      assert ScanStep(Scan(d, inStr, false), '\\') == Scan(d, inStr, true);
      assert ScanStep(Scan(d, inStr, true), c) == Scan(d, inStr, false);
      assert ObjLen(s[1..], Scan(d, inStr, true)) == 1 + ObjLen(t, Scan(d, inStr, false));
    }
  }

  lemma {:induction false} PassesItems(items: seq<StrItem>)
    requires ItemsOk(items)
    ensures Passes(PrintItems(items), true)
    decreases |items|
  {
    hide Passes;
    if items == [] {
      PassesEmpty(true);
    } else {
      match items[0] {
        case Plain(c) => PassesChar(c, true);
        case Esc(c) => PassesEscape(c, true);
        case Uni(hex) =>
          PassesEscape('u', true);
          PassesPlain(hex, true);
          PassesBoth(['\\', 'u'], hex, true);
      }
      PassesItems(items[1..]);
      PassesBoth(PrintItem(items[0]), PrintItems(items[1..]), true);
    }
  }

  /** Strings hide quotes, backslashes and braces. */
  lemma PassesString(items: seq<StrItem>)
    requires ItemsOk(items)
    ensures Passes(PrintString(items), false)
  {
    PassesItems(items);
    hide PrintItems;
    forall d: nat, t: string | d >= 1 ensures Passed(PrintString(items), false, d, t) {
      PassesAt(PrintItems(items), true, d, ['"'] + t);
      QuotedPassed(PrintItems(items), d, t);
    }
  }

  lemma QuotedPassed(p: string, d: nat, t: string)
    requires Passed(p, true, d, ['"'] + t)
    ensures Passed(['"'] + p + ['"'], false, d, t)
  {
    hide ObjLen;
    assert ['"'] + p + ['"'] + t == ['"'] + (p + (['"'] + t));
    ObjLenCons('"', p + (['"'] + t), Scan(d, false, false));
    ObjLenCons('"', t, Scan(d, true, false));
  }

  /** Braces around something that passes: the opening one is taken back by the closing one. */
  lemma BracedLen(inner: string, d: nat, t: string)
    requires Passes(inner, false)
    ensures ObjLen(['{'] + inner + ['}'] + t, Scan(d, false, false))
         == |inner| + 2 + (if d >= 1 then ObjLen(t, Scan(d, false, false)) else 0)
  {
    var u := ['}'] + t;
    PassesAt(inner, false, d + 1, u);
    hide ObjLen, Passes;
    assert ['{'] + inner + ['}'] + t == ['{'] + (inner + u);
    ObjLenCons('{', inner + u, Scan(d, false, false));
    assert ObjLen(inner + u, Scan(d + 1, false, false)) == |inner| + ObjLen(u, Scan(d + 1, false, false));
    ObjLenCons('}', t, Scan(d + 1, false, false));
  }

  lemma ObjLenCons(c: char, s: string, st: Scan)
    ensures ObjLen([c] + s, st) == if Closes(st, c) then 1 else 1 + ObjLen(s, ScanStep(st, c))
  {
    assert ([c] + s)[1..] == s;
  }

  lemma PassesBraced(inner: string)
    requires Passes(inner, false)
    ensures Passes(['{'] + inner + ['}'], false)
  {
    hide ObjLen;
    forall d: nat, t: string | d >= 1 ensures Passed(['{'] + inner + ['}'], false, d, t) {
      BracedLen(inner, d, t);
    }
  }

  lemma PassesBracketed(inner: string)
    requires Passes(inner, false)
    ensures Passes(['['] + inner + [']'], false)
  {
    hide Passes;
    PassesChar('[', false);
    PassesChar(']', false);
    PassesBoth(['['], inner, false);
    PassesBoth(['['] + inner, [']'], false);
  }

  lemma PassesWhite(ws: string)
    requires White(ws)
    ensures Passes(ws, false)
  {
    hide Passes;
    PassesPlain(ws, false);
  }

  lemma {:induction false} PassesJson(v: Json)
    requires JsonOk(v)
    ensures Passes(Print(v), false)
    decreases v
  {
    hide Passes, PrintElems, PrintMembers, PrintString;
    match v
    case Lit(text) =>
      PassesPlain(text, false);
    case Str(items) => PassesString(items);
    case Arr(elems) =>
      PassesElems(elems);
      PassesBracketed(PrintElems(elems));
    case Obj(members) =>
      PassesMembers(members);
      PassesBraced(PrintMembers(members));
  }

  lemma PassesComma(b: bool)
    ensures Passes(if b then [','] else [], false)
  {
    hide Passes;
    PassesChar(',', false);
    PassesEmpty(false);
  }

  lemma {:induction false} PassesElems(e: Elems)
    requires ElemsOk(e)
    ensures Passes(PrintElems(e), false)
    decreases e
  {
    hide Passes;
    match e
    case NoElems(ws) => PassesWhite(ws);
    case Elem(before, value, after, rest) =>
      var p1 := before + Print(value);
      var p2 := p1 + after;
      var comma := if rest.Elem? then [','] else [];
      PassesWhite(before);
      PassesJson(value);
      PassesWhite(after);
      PassesComma(rest.Elem?);
      PassesElems(rest);
      PassesBoth(before, Print(value), false);
      PassesBoth(p1, after, false);
      PassesBoth(p2, comma, false);
      PassesBoth(p2 + comma, PrintElems(rest), false);
  }

  lemma {:induction false} PassesMembers(m: Members)
    requires MembersOk(m)
    ensures Passes(PrintMembers(m), false)
    decreases m
  {
    hide Passes;
    match m
    case NoMembers(ws) => PassesWhite(ws);
    case Member(before, key, mid, sep, value, after, rest) =>
      var p1 := before + PrintString(key);
      var p2 := p1 + mid;
      var p3 := p2 + [':'];
      var p4 := p3 + sep;
      var p5 := p4 + Print(value);
      var p6 := p5 + after;
      var comma := if rest.Member? then [','] else [];
      PassesWhite(before);
      PassesString(key);
      PassesWhite(mid);
      PassesChar(':', false);
      PassesWhite(sep);
      PassesJson(value);
      PassesWhite(after);
      PassesComma(rest.Member?);
      PassesMembers(rest);
      PassesBoth(before, PrintString(key), false);
      PassesBoth(p1, mid, false);
      PassesBoth(p2, [':'], false);
      PassesBoth(p3, sep, false);
      PassesBoth(p4, Print(value), false);
      PassesBoth(p5, after, false);
      PassesBoth(p6, comma, false);
      PassesBoth(p6 + comma, PrintMembers(rest), false);
  }

  // ----- Slicing is exact -----

  predicate AllObjects(e: Elems)
    decreases e
  {
    e.NoElems? || (e.value.Obj? && AllObjects(e.rest))
  }

  /** The printed elements, in order. */
  function Printed(e: Elems): seq<string>
    decreases e
  {
    if e.NoElems? then [] else [Print(e.value)] + Printed(e.rest)
  }

  /** Text without '{' and ']' is skipped. */
  lemma {:induction false} SlicesSkip(w: string, s: string)
    requires forall i :: 0 <= i < |w| ==> w[i] != '{' && w[i] != ']'
    ensures Slices(w + s) == Slices(s)
    decreases |w|
  {
    if w == [] {
      assert w + s == s;
    } else {
      assert (w + s)[1..] == w[1..] + s;
      SlicesSkip(w[1..], s);
      SlicesSkipOne(w + s);
    }
  }

  lemma SlicesSkipOne(s: string)
    requires s != [] && s[0] != '{' && s[0] != ']'
    ensures Slices(s) == Slices(s[1..])
  {
    hide *;
    var u := s[1..];
    SkipOne(s);
    SlicesStep(s);
    SlicesStep(u);
    if SkipLen(u) < |u| {
      SliceShift(s, 1, SkipLen(u));
    }
  }

  lemma SkipOne(s: string)
    requires s != [] && s[0] != '{' && s[0] != ']'
    ensures SkipLen(s) == 1 + SkipLen(s[1..])
  {
  }

  lemma SlicesStep(s: string)
    ensures Slices(s) == if SkipLen(s) == |s| || s[SkipLen(s)] == ']' then []
                         else [ObjectAt(s, SkipLen(s))] + Slices(After(s, SkipLen(s)))
  {
    hide SkipLen, ObjectAt, After;
  }

  lemma SliceShift(s: string, i: nat, k: nat)
    requires i + k < |s|
    ensures ObjectAt(s, i + k) == ObjectAt(s[i..], k) && After(s, i + k) == After(s[i..], k)
  {
    hide ObjLen;
    assert s[i..][k..] == s[i + k..];
  }

  /** The slices of a suffix, in terms of the whole text. */
  lemma SlicesFrom(s: string, cur: nat)
    requires cur <= |s|
    ensures var start := cur + SkipLen(s[cur..]);
            Slices(s[cur..]) == if start == |s| || s[start] == ']' then []
                                else [ObjectAt(s, start)] + Slices(After(s, start))
  {
    hide ObjectAt, After;
    var u := s[cur..];
    if SkipLen(u) < |u| {
      SliceShift(s, cur, SkipLen(u));
    }
  }

  /** A printed object is cut out whole, whatever follows it. */
  lemma SlicesObject(m: Members, t: string)
    requires MembersOk(m)
    ensures Slices(Print(Obj(m)) + t) == [Print(Obj(m))] + Slices(t)
  {
    hide Passes;
    var p := Print(Obj(m));
    PassesMembers(m);
    BracedLen(PrintMembers(m), 0, t);
    var s := p + t;
    assert s[0] == '{' && SkipLen(s) == 0 && s[0..] == s;
    assert ObjLen(s, START) == |p|;
    assert s[0..|p|] == p && s[|p|..] == t;
  }

  /** For every list of JSON objects, however it is spaced and whatever its strings contain, the
      scanner cuts out exactly the printed objects, in order, and stops at the closing bracket. */
  lemma {:induction false} SlicingIsExact(e: Elems, t: string)
    requires ElemsOk(e) && AllObjects(e)
    ensures Slices(PrintElems(e) + [']'] + t) == Printed(e)
    decreases e
  {
    hide Slices;
    var closing := [']'] + t;
    match e
    case NoElems(ws) =>
      assert PrintElems(e) + [']'] + t == ws + closing;
      SlicesSkip(ws, closing);
      SlicesStop(t);
    case Elem(before, value, after, rest) =>
      var comma := if rest.Elem? then [','] else [];
      var tail := PrintElems(rest) + [']'] + t;
      assert PrintElems(e) + [']'] + t == before + (Print(value) + ((after + comma) + tail));
      SlicesSkip(before, Print(value) + ((after + comma) + tail));
      SlicesObject(value.members, (after + comma) + tail);
      SlicesSkip(after + comma, tail);
      SlicingIsExact(rest, t);
  }

  lemma SlicesStop(t: string)
    ensures Slices([']'] + t) == []
  {
  }
}
