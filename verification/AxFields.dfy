/** What the text search of `include/axiom/cdp.hpp` finds in printed JSON: a field's string, number or
    boolean, when the first occurrence of its name is the field itself. */
module AxFields {
  import opened Search
  import opened JsonScan
  import opened DecimalText
  import opened AxTree

  lemma Parts(s: string, at: nat, a: string, b: string)
    requires OccursAt(s, a + b, at)
    ensures OccursAt(s, a, at) && OccursAt(s, b, at + |a|)
  {
    var t := s[at..at + |a + b|];
    assert t[..|a|] == a && t[|a|..] == b;
    assert s[at..at + |a|] == t[..|a|];
    assert s[at + |a|..at + |a| + |b|] == t[|a|..];
  }

  lemma First(s: string, at: nat, t: string)
    requires OccursAt(s, t, at) && t != ""
    ensures at < |s| && s[at] == t[0] && OccursAt(s, t[1..], at + 1)
  {
    assert t == [t[0]] + t[1..];
    Parts(s, at, [t[0]], t[1..]);
    assert s[at..at + 1] == [s[at]];
  }

  predicate Blanks(s: string, newline: bool) { forall i :: 0 <= i < |s| ==> Blank(s[i], newline) }

  lemma {:induction false} SkipBlanksTo(s: string, at: nat, ws: string, newline: bool)
    requires OccursAt(s, ws, at) && Blanks(ws, newline)
    requires at + |ws| < |s| && !Blank(s[at + |ws|], newline)
    ensures SkipBlanks(s, at, newline) == at + |ws|
    decreases |ws|
  {
    hide OccursAt, Blank;
    if ws != "" {
      First(s, at, ws);
      SkipBlanksTo(s, at + 1, ws[1..], newline);
    }
  }

  // ----- Strings -----

  /** The quote that closes a printed string is found, whatever the string contains. */
  lemma {:induction false} StringEndIs(s: string, at: nat, items: seq<StrItem>)
    requires ItemsOk(items) && OccursAt(s, PrintItems(items) + ['"'], at)
    ensures StringEnd(s, at, false) == at + |PrintItems(items)|
    decreases |items|
  {
    hide OccursAt, ItemOk, PrintItem;
    if items == [] {
      assert PrintItems(items) + ['"'] == ['"'];
      First(s, at, ['"']);
    } else {
      hide StringEnd;
      var first, rest := PrintItem(items[0]), PrintItems(items[1..]) + ['"'];
      assert PrintItems(items) + ['"'] == first + rest;
      Parts(s, at, first, rest);
      ItemPassed(s, at, items[0]);
      StringEndIs(s, at + |first|, items[1..]);
    }
  }

  lemma ItemPassed(s: string, at: nat, i: StrItem)
    requires ItemOk(i) && OccursAt(s, PrintItem(i), at)
    ensures at + |PrintItem(i)| <= |s|
    ensures StringEnd(s, at, false) == StringEnd(s, at + |PrintItem(i)|, false)
  {
    var p := PrintItem(i);
    First(s, at, p);
    if !i.Plain? {
      First(s, at + 1, p[1..]);
      if i.Uni? {
        assert p[1..][1..] == i.hex;
        PlainPassed(s, at + 2, i.hex);
      }
    }
  }

  lemma {:induction false} PlainPassed(s: string, at: nat, t: string)
    requires OccursAt(s, t, at) && forall k :: 0 <= k < |t| ==> t[k] != '"' && t[k] != '\\'
    ensures StringEnd(s, at, false) == StringEnd(s, at + |t|, false)
    decreases |t|
  {
    if t != "" {
      First(s, at, t);
      PlainPassed(s, at + 1, t[1..]);
    }
  }

  /** A printed string is read back: it starts with a quote, and ends at the quote that closes it. */
  lemma StringReads(s: string, v: nat, items: seq<StrItem>)
    requires ItemsOk(items) && OccursAt(s, PrintString(items), v)
    ensures v < |s| && s[v] == '"' && s[v + 1..StringEnd(s, v + 1, false)] == PrintItems(items)
  {
    hide StringEnd, PrintItems, ItemsOk;
    var t := PrintItems(items);
    assert PrintString(items) == ['"'] + (t + ['"']);
    Parts(s, v, ['"'], t + ['"']);
    First(s, v, ['"']);
    Parts(s, v + 1, t, ['"']);
    StringEndIs(s, v + 1, items);
  }

  // ----- Finding a field -----

  /** The first occurrence of the field's name, then a colon, and blanks before the value. */
  predicate FieldAt(s: string, field: string, from: nat, at: nat, mid: string, ws: string, newline: bool) {
    && FirstAt(s, field, from, at)
    && ':' !in mid && Blanks(ws, newline)
    && OccursAt(s, mid + ([':'] + ws), at + |field|)
  }

  /** Where the value starts. */
  function ValueAt(field: string, at: nat, mid: string, ws: string): nat { at + |field| + |mid| + 1 + |ws| }

  lemma NotInside(s: string, at: nat, mid: string, c: char)
    requires OccursAt(s, mid, at) && c !in mid
    ensures forall i :: at <= i < at + |mid| ==> !OccursAt(s, [c], i)
  {
    forall i | at <= i < at + |mid| ensures !OccursAt(s, [c], i) {
      assert s[at..at + |mid|][i - at] == mid[i - at];
      assert s[i..i + 1] == [s[i]];
    }
  }

  lemma BehindColonIs(s: string, field: string, from: nat, at: nat, mid: string, ws: string, newline: bool)
    requires FieldAt(s, field, from, at, mid, ws, newline)
    ensures BehindColon(s, field, from) == Some(at + |field| + |mid| + 1)
    ensures OccursAt(s, ws, at + |field| + |mid| + 1)
  {
    hide OccursAt, Blanks, Find;
    var start := at + |field|;
    Parts(s, start, mid, [':'] + ws);
    Parts(s, start + |mid|, [':'], ws);
    NotInside(s, start, mid, ':');
    FindIsFirst(s, field, from, at);
    FindIsFirst(s, ":", start, start + |mid|);
  }

  /** Behind the colon and the blanks the value starts. */
  lemma BehindBlanks(s: string, field: string, from: nat, at: nat, mid: string, ws: string, newline: bool)
    requires FieldAt(s, field, from, at, mid, ws, newline)
    requires ValueAt(field, at, mid, ws) < |s| && !Blank(s[ValueAt(field, at, mid, ws)], newline)
    ensures var start := BehindColon(s, field, from);
            start.Some? && SkipBlanks(s, start.value, newline) == ValueAt(field, at, mid, ws)
  {
    hide BehindColon, SkipBlanks, FirstAt, OccursAt, Blank;
    BehindColonIs(s, field, from, at, mid, ws, newline);
    SkipBlanksTo(s, at + |field| + |mid| + 1, ws, newline);
  }

  /** A string field comes back as it was printed. */
  lemma FieldStrOfPrinted(s: string, field: string, at: nat, mid: string, ws: string, items: seq<StrItem>)
    requires ItemsOk(items) && FieldAt(s, field, 0, at, mid, ws, true)
    requires OccursAt(s, PrintString(items), ValueAt(field, at, mid, ws))
    ensures FieldStr(s, field) == PrintItems(items)
  {
    hide BehindColon, SkipBlanks, StringEnd, FieldAt, ItemsOk, PrintString, OccursAt;
    StringReads(s, ValueAt(field, at, mid, ws), items);
    BehindBlanks(s, field, 0, at, mid, ws, true);
  }

  /** A field whose value is an object, as in `"role":{"type":"role","value":"button"}`, comes back as
      the string behind the object's first `"value"`. */
  lemma FieldStrOfObject(s: string, field: string, at: nat, mid: string, ws: string,
                         inner: nat, mid': string, ws': string, items: seq<StrItem>)
    requires ItemsOk(items) && FieldAt(s, field, 0, at, mid, ws, true)
    requires OccursAt(s, "{", ValueAt(field, at, mid, ws))
    requires FieldAt(s, "\"value\"", ValueAt(field, at, mid, ws), inner, mid', ws', false)
    requires OccursAt(s, PrintString(items), ValueAt("\"value\"", inner, mid', ws'))
    ensures FieldStr(s, field) == PrintItems(items)
  {
    hide BehindColon, SkipBlanks, StringEnd, FieldAt, ItemsOk, PrintString, OccursAt, ValueAt;
    var brace, v := ValueAt(field, at, mid, ws), ValueAt("\"value\"", inner, mid', ws');
    First(s, brace, "{");
    StringReads(s, v, items);
    BehindBlanks(s, field, 0, at, mid, ws, true);
    BehindBlanks(s, "\"value\"", brace, inner, mid', ws', false);
    ValueStartOfObject(s, field);
  }

  lemma ValueStartOfObject(s: string, field: string)
    requires BehindColon(s, field, 0).Some?
    ensures var brace := SkipBlanks(s, BehindColon(s, field, 0).value, true);
            var inner := BehindColon(s, "\"value\"", brace);
            brace < |s| && s[brace] == '{' && inner.Some? ==>
              ValueStart(s, field) == Some(SkipBlanks(s, inner.value, false))
  {
    hide BehindColon, SkipBlanks;
  }

  /** The node's own value is out of reach when its role is printed first: the lookup of `"value"`
      finds the one inside the role, so that the node's value is its role. */
  lemma ValueIsRole(s: string, at: nat, mid: string, ws: string, inner: nat, mid': string, ws': string,
                    items: seq<StrItem>)
    requires ItemsOk(items) && FieldAt(s, "\"role\"", 0, at, mid, ws, true)
    requires OccursAt(s, "{", ValueAt("\"role\"", at, mid, ws))
    requires FieldAt(s, "\"value\"", 0, inner, mid', ws', false) && inner >= ValueAt("\"role\"", at, mid, ws)
    requires OccursAt(s, PrintString(items), ValueAt("\"value\"", inner, mid', ws'))
    ensures MakeNode(s).value == MakeNode(s).role == PrintItems(items)
  {
    hide FieldStr, PrintString, FieldInt, FieldBool, OccursAt;
    FieldStrOfObject(s, "\"role\"", at, mid, ws, inner, mid', ws', items);
    FieldStrOfPrinted(s, "\"value\"", inner, mid', ws', items);
  }

  // ----- Numbers and booleans -----

  function Power(k: nat): nat { if k == 0 then 1 else 10 * Power(k - 1) }

  lemma DigitValue(d: nat)
    requires d < 10
    ensures IsDigit("0123456789"[d]) && "0123456789"[d] as int - '0' as int == d
  {
  }

  lemma PowerStep(acc: nat, n: nat, k: nat)
    ensures acc * Power(k + 1) + n == 10 * (acc * Power(k) + n / 10) + n % 10
  {
    var p := Power(k);
    assert acc * (10 * p) == 10 * (acc * p);
  }

  lemma DigitOne(s: string, at: nat, d: nat, acc: nat)
    requires d < 10 && OccursAt(s, ["0123456789"[d]], at)
    ensures at + 1 <= |s| && DigitRun(s, at, acc) == DigitRun(s, at + 1, 10 * acc + d)
  {
    DigitValue(d);
    First(s, at, ["0123456789"[d]]);
  }

  /** Reading the digits of n behind a number acc goes on with the number of both. */
  lemma {:induction false} DigitsThen(s: string, at: nat, n: nat, acc: nat)
    requires OccursAt(s, Decimal(n), at)
    ensures at + |Decimal(n)| <= |s|
    ensures DigitRun(s, at, acc) == DigitRun(s, at + |Decimal(n)|, acc * Power(|Decimal(n)|) + n)
    decreases n
  {
    hide OccursAt, DigitRun, Power;
    var front, last := if n < 10 then "" else Decimal(n / 10), "0123456789"[n % 10];
    var so := acc * Power(|front|) + n / 10;
    assert Decimal(n) == front + [last];
    Parts(s, at, front, [last]);
    if n >= 10 {
      DigitsThen(s, at, n / 10, acc);
    } else {
      PowerOfZero();
    }
    DigitOne(s, at + |front|, n % 10, so);
    PowerStep(acc, n, |front|);
  }

  lemma PowerOfZero()
    ensures Power(0) == 1
  {
  }

  /** A number as it is printed. */
  function IntText(n: int): (s: string)
    ensures s != "" && (s[0] == '-' || IsDigit(s[0]))
  {
    if n < 0 then "-" + Decimal(-n) else Decimal(n)
  }

  predicate Int32(n: int) { -0x8000_0000 <= n < 0x8000_0000 }

  /** The number ends where it was printed to end. */
  predicate EndsAt(s: string, end: nat) { end < |s| ==> !IsDigit(s[end]) }

  /** The digits of a number are read to its end. */
  lemma RunIs(s: string, from: nat, m: nat)
    requires OccursAt(s, Decimal(m), from) && EndsAt(s, from + |Decimal(m)|)
    ensures from + |Decimal(m)| <= |s| && DigitRun(s, from, 0) == (from + |Decimal(m)|, m)
  {
    DigitsThen(s, from, m, 0);
    RunEnds(s, from + |Decimal(m)|, m);
  }

  lemma RunEnds(s: string, end: nat, acc: nat)
    requires end <= |s| && EndsAt(s, end)
    ensures DigitRun(s, end, acc) == (end, acc)
  {
  }

  /** A number that int32_t can hold is read; any other reads as 0. */
  lemma FromCharsIs(s: string, at: nat, n: int)
    requires OccursAt(s, IntText(n), at) && EndsAt(s, at + |IntText(n)|)
    ensures FromChars(s, at) == if Int32(n) then n else 0
  {
    hide *;
    IntTextIs(n);
    if n < 0 {
      Parts(s, at, "-", Decimal(-n));
      First(s, at, "-");
      RunIs(s, at + 1, -n);
    } else {
      First(s, at, IntText(n));
      RunIs(s, at, n);
    }
    var m: nat := if n < 0 then -n else n;
    FromRun(s, at, n < 0, m, at + |IntText(n)|);
  }

  lemma IntTextIs(n: int)
    ensures n < 0 ==> IntText(n) == "-" + Decimal(-n) && |IntText(n)| == 1 + |Decimal(-n)|
    ensures n >= 0 ==> IntText(n) == Decimal(n) && IntText(n)[0] != '-'
    ensures Int32(n) <==> -0x8000_0000 <= n < 0x8000_0000
  {
  }

  lemma FromRun(s: string, at: nat, neg: bool, m: nat, end: nat)
    requires at < end <= |s| && neg == (s[at] == '-')
    requires DigitRun(s, if neg then at + 1 else at, 0) == (end, m) && end > if neg then at + 1 else at
    ensures var n: int := if neg then -(m as int) else m;
            FromChars(s, at) == if -0x8000_0000 <= n < 0x8000_0000 then n else 0
  {
    hide DigitRun;
  }

  /** A number field comes back as it was printed if int32_t can hold it, and as 0 otherwise. */
  lemma FieldIntOfPrinted(s: string, field: string, at: nat, mid: string, ws: string, n: int)
    requires FieldAt(s, field, 0, at, mid, ws, true)
    requires OccursAt(s, IntText(n), ValueAt(field, at, mid, ws))
    requires EndsAt(s, ValueAt(field, at, mid, ws) + |IntText(n)|)
    ensures FieldInt(s, field) == if Int32(n) then n else 0
  {
    var v := ValueAt(field, at, mid, ws);
    First(s, v, IntText(n));
    hide BehindColon, SkipBlanks, FieldAt, OccursAt, IntText, FromChars, EndsAt, ValueAt;
    FromCharsIs(s, v, n);
    BehindBlanks(s, field, 0, at, mid, ws, true);
  }

  /** So does a number behind the first `value` in an object. */
  lemma FieldIntOfObject(s: string, field: string, at: nat, mid: string, ws: string,
                         inner: nat, mid': string, ws': string, n: int)
    requires FieldAt(s, field, 0, at, mid, ws, true)
    requires OccursAt(s, "{", ValueAt(field, at, mid, ws))
    requires FieldAt(s, "\"value\"", ValueAt(field, at, mid, ws), inner, mid', ws', false)
    requires OccursAt(s, IntText(n), ValueAt("\"value\"", inner, mid', ws'))
    requires EndsAt(s, ValueAt("\"value\"", inner, mid', ws') + |IntText(n)|)
    ensures FieldInt(s, field) == if Int32(n) then n else 0
  {
    hide *;
    var brace, v := ValueAt(field, at, mid, ws), ValueAt("\"value\"", inner, mid', ws');
    First(s, brace, "{");
    First(s, v, IntText(n));
    NotBlank(s[brace], s[v]);
    FromCharsIs(s, v, n);
    BehindBlanks(s, field, 0, at, mid, ws, true);
    BehindBlanks(s, "\"value\"", brace, inner, mid', ws', false);
    IntInBraces(s, field, brace, v);
  }

  lemma NotBlank(brace: char, c: char)
    requires brace == '{' && (c == '-' || IsDigit(c))
    ensures !Blank(brace, true) && !Blank(c, false)
  {
  }

  lemma IntInBraces(s: string, field: string, brace: nat, v: nat)
    requires var start := BehindColon(s, field, 0); start.Some? && SkipBlanks(s, start.value, true) == brace
    requires brace < |s| && s[brace] == '{'
    requires var start := BehindColon(s, "\"value\"", brace); start.Some? && SkipBlanks(s, start.value, false) == v
    ensures v <= |s| && FieldInt(s, field) == FromChars(s, v)
  {
    hide BehindColon, SkipBlanks, FromChars;
  }

  /** A boolean field is true exactly when `true` was printed. */
  lemma FieldBoolOfPrinted(s: string, field: string, at: nat, mid: string, ws: string, b: bool)
    requires FieldAt(s, field, 0, at, mid, ws, true)
    requires OccursAt(s, if b then "true" else "false", ValueAt(field, at, mid, ws))
    ensures FieldBool(s, field) == b
  {
    var v := ValueAt(field, at, mid, ws);
    First(s, v, if b then "true" else "false");
    if !b && OccursAt(s, "true", v) {
      First(s, v, "true");
    }
    hide BehindColon, SkipBlanks, FieldAt, OccursAt;
    BehindBlanks(s, field, 0, at, mid, ws, true);
  }
}
