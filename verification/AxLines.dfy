/** Reading the printed accessibility tree of `include/axiom/cdp.hpp` back: what each line says of its node. */
module AxLines {
  import opened Search
  import opened DecimalText
  import opened FixedVectors
  import opened AxTree
  import opened AxTreeLaws
  import JsonScan

  /** What a line says. */
  datatype Said =
    | Control(handle: nat, role: string, name: string, value: string, description: string)
    | Heading(level: nat, name: string)
    | Text(name: string)

  /** What is to be said of a node. */
  function ToSay(n: AXNode): Option<Said> {
    if n.actionable then Some(Control(n.handle, n.role, n.name, n.value, n.description))
    else if n.role == "heading" then Some(Heading(n.headingLevel, n.name))
    else if n.name != "" then Some(Text(n.name))
    else None
  }

  function OneOrNone(x: Option<Said>): seq<Said> { if x.None? then [] else [x.value] }

  function AllToSay(nodes: seq<AXNode>): seq<Said>
    decreases nodes
  {
    if nodes == [] then []
    else
      AllToSay(nodes[..|nodes| - 1]) + OneOrNone(ToSay(nodes[|nodes| - 1]))
  }

  // ----- A reader -----

  /** The string between two marks at the front, and what follows; nothing when the first mark is not there. */
  function Quote(s: string, open: string, close: string): (string, string) {
    if open <= s then
      var t := s[|open|..];
      var n := IndexOf(t, '"');
      if close <= t[n..] then (t[..n], t[n + |close|..]) else ("", s)
    else ("", s)
  }

  /** [@3] button "name" (value="v") (desc="d") */
  function ReadControl(s: string): Option<Said> {
    var k := IndexOf(s, ']');
    if !("[@" <= s[..k]) || !("] " <= s[k..]) then None
    else
      var t := s[k + 2..];
      var role := t[..IndexOf(t, ' ')];
      var (name, u) := Quote(t[|role|..], " \"", "\"");
      var (value, v) := Quote(u, " (value=\"", "\")");
      var (description, w) := Quote(v, " (desc=\"", "\")");
      if w == "" then Some(Control(Value(s[..k][2..]), role, name, value, description)) else None
  }

  /** [heading:2] "name" */
  function ReadHeading(s: string): Option<Said> {
    var k := IndexOf(s, ']');
    if !("[heading:" <= s[..k]) || !("] \"" <= s[k..]) then None
    else
      var (name, rest) := Quote(s[k..], "] \"", "\"");
      if rest == "" then Some(Heading(Value(s[..k][9..]), name)) else None
  }

  /** text: "name" */
  function ReadText(s: string): Option<Said> {
    var (name, rest) := Quote(s, "text: \"", "\"");
    if "text: \"" <= s && rest == "" then Some(Text(name)) else None
  }

  function ReadLine(s: string): Option<Said> {
    if "[@" <= s then ReadControl(s) else if "[heading:" <= s then ReadHeading(s) else ReadText(s)
  }

  /** What the lines of a text say. */
  function ReadTree(text: string): seq<Said>
    decreases |text|
  {
    var n := IndexOf(text, '\n');
    if n == |text| then []
    else OneOrNone(ReadLine(text[..n])) + ReadTree(text[n + 1..])
  }

  // ----- Lines of nodes -----

  /** A string that a line can quote. */
  predicate Plain(s: string) { '"' !in s && '\n' !in s }

  /** A node whose strings a line can quote, and whose role is a word if it is actionable. */
  predicate Sayable(n: AXNode) {
    && Plain(n.name) && Plain(n.value) && Plain(n.description)
    && (n.actionable ==> IsActionableRole(n.role))
  }

  function Optional(text: string, open: string, close: string): string {
    if text == "" then "" else open + (text + close)
  }

  /** A mark's string is read back, whatever follows. */
  lemma QuoteOf(open: string, text: string, close: string, rest: string)
    requires '"' !in text && close != "" && close[0] == '"'
    ensures Quote(open + (text + (close + rest)), open, close) == (text, rest)
  {
    var s := open + (text + (close + rest));
    var t := s[|open|..];
    assert t == text + ['"'] + (close[1..] + rest);
    IndexOfFirst(text, '"', close[1..] + rest);
    assert t[..|text|] == text && t[|text|..] == close + rest;
    assert t[|text| + |close|..] == rest;
  }

  /** A string that is left out is read as empty. */
  lemma QuoteOfOption(open: string, text: string, close: string, rest: string)
    requires '"' !in text && close != "" && close[0] == '"' && !(open <= rest)
    ensures Quote(Optional(text, open, close) + rest, open, close) == (text, rest)
  {
    if text == "" {
      assert "" + rest == rest;
    } else {
      QuoteOf(open, text, close, rest);
      assert open + (text + close) + rest == open + (text + (close + rest));
    }
  }

  /** What follows the role in a control's line. */
  function Rest(n: AXNode): string {
    Optional(n.name, " \"", "\"")
    + (Optional(n.value, " (value=\"", "\")") + Optional(n.description, " (desc=\"", "\")"))
  }

  lemma RestIsRead(n: AXNode)
    requires Plain(n.name) && Plain(n.value) && Plain(n.description)
    ensures var (name, u) := Quote(Rest(n), " \"", "\"");
            var (value, v) := Quote(u, " (value=\"", "\")");
            var (description, w) := Quote(v, " (desc=\"", "\")");
            name == n.name && value == n.value && description == n.description && w == ""
  {
    var d := Optional(n.description, " (desc=\"", "\")");
    var v := Optional(n.value, " (value=\"", "\")");
    assert d + "" == d;
    Marks(n);
    hide Quote, Optional;
    QuoteOfOption(" \"", n.name, "\"", v + d);
    QuoteOfOption(" (value=\"", n.value, "\")", d);
    QuoteOfOption(" (desc=\"", n.description, "\")", "");
  }

  lemma Marks(n: AXNode)
    ensures var d, v := Optional(n.description, " (desc=\"", "\")"), Optional(n.value, " (value=\"", "\")");
            !(" \"" <= v + d) && !(" (value=\"" <= d) && !(" (desc=\"" <= "")
  {
    var d, v := Optional(n.description, " (desc=\"", "\")"), Optional(n.value, " (value=\"", "\")");
    assert d != "" ==> d[1] == '(' && d[2] == 'd';
    assert v != "" ==> v[1] == '(';
    assert v + d != "" ==> (v + d)[1] == '(';
    hide Optional;
    assert " \""[1] == '"' && " (value=\""[2] == 'v';
  }

  /** The line of a node, without its line feed. */
  function LineOf(n: AXNode): string {
    if n.actionable then ("[@" + Decimal(n.handle)) + ("] " + (n.role + Rest(n)))
    else if n.role == "heading" then ("[heading:" + Decimal(n.headingLevel)) + ("] \"" + (n.name + ("\"" + "")))
    else "text: \"" + (n.name + ("\"" + ""))
  }

  lemma JoinedCons(a: string, rest: seq<string>)
    ensures Joined([a] + rest) == a + Joined(rest)
  {
    assert ([a] + rest)[1..] == rest;
  }

  lemma {:induction false} JoinedConcat(a: seq<string>, b: seq<string>)
    ensures Joined(a + b) == Joined(a) + Joined(b)
    decreases |a|
  {
    if a == [] {
      assert a + b == b;
    } else {
      assert (a + b)[1..] == a[1..] + b;
      JoinedConcat(a[1..], b);
    }
  }

  lemma JoinedThree(a: string, b: string, c: string)
    ensures Joined([a, b, c]) == a + (b + c)
  {
    JoinedCons(a, [b, c]);
    JoinedCons(b, [c]);
    JoinedCons(c, []);
    assert [a] + [b, c] == [a, b, c] && [b] + [c] == [b, c] && [c] + [] == [c];
    hide Joined;
    assert Joined([]) == "" by { JoinedNone(); }
    assert c + "" == c;
  }

  lemma JoinedNone()
    ensures Joined([]) == ""
  {
  }

  lemma OptionalPieces(text: string, open: string, close: string)
    ensures Joined(if text == "" then [] else [open, text, close]) == Optional(text, open, close)
  {
    JoinedThree(open, text, close);
  }

  lemma ControlPieces(n: AXNode)
    requires n.actionable
    ensures Joined(Pieces(n)) == LineOf(n) + "\n"
  {
    var head := ["[@", Decimal(n.handle), "] ", n.role];
    var name := if n.name == "" then [] else [" \"", n.name, "\""];
    var value := if n.value == "" then [] else [" (value=\"", n.value, "\")"];
    var desc := if n.description == "" then [] else [" (desc=\"", n.description, "\")"];
    assert Pieces(n) == head + name + value + desc + ["\n"];
    assert LineOf(n) == ("[@" + Decimal(n.handle)) + ("] " + (n.role + Rest(n)));
    OptionalPieces(n.name, " \"", "\"");
    OptionalPieces(n.value, " (value=\"", "\")");
    OptionalPieces(n.description, " (desc=\"", "\")");
    JoinedThree("[@", Decimal(n.handle), "] ");
    assert head == ["[@", Decimal(n.handle), "] "] + [n.role];
    JoinedConcat(["[@", Decimal(n.handle), "] "], [n.role]);
    JoinedOne(n.role);
    JoinedOne("\n");
    JoinedConcat(head, name);
    JoinedConcat(head + name, value);
    JoinedConcat(head + name + value, desc);
    JoinedConcat(head + name + value + desc, ["\n"]);
    hide Joined, Pieces, Optional, LineOf;
    assert Rest(n) == Joined(name) + (Joined(value) + Joined(desc));
    hide Rest;
    Regrouped("[@", Decimal(n.handle), "] ", n.role, Joined(name), Joined(value), Joined(desc));
  }

  lemma JoinedOne(a: string)
    ensures Joined([a]) == a
  {
    assert [a][1..] == [];
  }

  lemma Regrouped(a: string, b: string, c: string, d: string, x: string, y: string, z: string)
    ensures ((a + (b + c)) + d) + x + y + z + "\n" == ((a + b) + (c + (d + (x + (y + z))))) + "\n"
  {
  }

  lemma HeadingPieces(n: AXNode)
    requires !n.actionable && n.role == "heading"
    ensures Joined(Pieces(n)) == LineOf(n) + "\n"
  {
    hide Joined, Decimal;
    var level := Decimal(n.headingLevel);
    assert Pieces(n) == ["[heading:", level, "] \""] + [n.name, "\"\n"];
    JoinedConcat(["[heading:", level, "] \""], [n.name, "\"\n"]);
    JoinedThree("[heading:", level, "] \"");
    JoinedTwo(n.name, "\"\n");
    assert LineOf(n) == ("[heading:" + level) + ("] \"" + (n.name + ("\"" + "")));
    hide *;
    HeadingRegrouped("[heading:", level, "] \"", n.name, "\"", "\n");
    assert "\"\n" == "\"" + "\n";
  }

  lemma HeadingRegrouped(a: string, b: string, c: string, d: string, e: string, f: string)
    ensures (a + (b + c)) + (d + (e + f)) == ((a + b) + (c + (d + (e + "")))) + f
  {
  }

  lemma TextPieces(n: AXNode)
    requires !n.actionable && n.role != "heading" && n.name != ""
    ensures Joined(Pieces(n)) == LineOf(n) + "\n"
  {
    hide Joined;
    assert Pieces(n) == ["text: \"", n.name, "\"\n"];
    JoinedThree("text: \"", n.name, "\"\n");
    assert LineOf(n) == "text: \"" + (n.name + ("\"" + ""));
    hide *;
    TextRegrouped("text: \"", n.name, "\"", "\n");
    assert "\"\n" == "\"" + "\n";
  }

  lemma TextRegrouped(a: string, b: string, c: string, d: string)
    ensures a + (b + (c + d)) == (a + (b + (c + ""))) + d
  {
  }

  lemma JoinedTwo(a: string, b: string)
    ensures Joined([a, b]) == a + b
  {
    JoinedCons(a, [b]);
    JoinedOne(b);
    assert [a] + [b] == [a, b];
  }

  // ----- Reading lines -----

  lemma ControlIsRead(n: AXNode)
    requires n.actionable && Sayable(n)
    ensures ReadLine(LineOf(n)) == ToSay(n)
  {
    var d, rest := Decimal(n.handle), Rest(n);
    var s := ("[@" + d) + ("] " + (n.role + rest));
    ControlLine(n);
    AtBracket("[@", d, "] ", n.role + rest);
    AfterRole(n.role, rest) by {
      RoleIsWord(n.role);
      RestStarts(n);
    }
    ValueOfDecimal(n.handle);
    RestIsRead(n);
    hide Quote, Rest, IndexOf, Value, Decimal, LineOf, IsActionableRole;
    StartsWith("[@", d, "] " + (n.role + rest));
  }

  lemma ControlLine(n: AXNode)
    requires n.actionable
    ensures LineOf(n) == ("[@" + Decimal(n.handle)) + ("] " + (n.role + Rest(n)))
  {
  }

  lemma StartsWith(a: string, b: string, c: string)
    ensures a <= (a + b) + c
  {
  }

  /** A line is split behind the digits in brackets. */
  lemma AtBracket(open: string, digits: string, close: string, tail: string)
    requires ']' !in open && (forall i :: 0 <= i < |digits| ==> IsDigit(digits[i])) && close != "" && close[0] == ']'
    ensures var s, k := (open + digits) + (close + tail), |open + digits|;
            && IndexOf(s, ']') == k && s[..k] == open + digits && s[k..] == close + tail
            && s[k + |close|..] == tail && open <= s[..k] && s[..k][|open|..] == digits && close <= s[k..]
  {
    var head := open + digits;
    assert head + (close + tail) == head + [']'] + (close[1..] + tail);
    IndexOfFirst(head, ']', close[1..] + tail);
  }

  lemma AfterRole(role: string, rest: string)
    requires ' ' !in role && (rest == "" || rest[0] == ' ')
    ensures var t := role + rest; IndexOf(t, ' ') == |role| && t[..|role|] == role && t[|role|..] == rest
  {
    if rest == "" {
      NotThere(role, ' ');
      assert role + rest == role;
    } else {
      assert role + rest == role + [' '] + rest[1..];
      IndexOfFirst(role, ' ', rest[1..]);
    }
  }

  lemma RoleIsWord(role: string)
    requires IsActionableRole(role)
    ensures ' ' !in role && '\n' !in role
  {
  }

  lemma RestStarts(n: AXNode)
    ensures Rest(n) == "" || Rest(n)[0] == ' '
  {
  }

  lemma {:induction false} NotThere(s: string, c: char)
    requires c !in s
    ensures IndexOf(s, c) == |s|
  {
  }

  lemma HeadingIsRead(n: AXNode)
    requires !n.actionable && n.role == "heading" && Sayable(n)
    ensures ReadLine(LineOf(n)) == ToSay(n)
  {
    var d := Decimal(n.headingLevel);
    AtBracket("[heading:", d, "] \"", n.name + ("\"" + ""));
    QuoteOf("] \"", n.name, "\"", "");
    ValueOfDecimal(n.headingLevel);
    StartsWith("[heading:", d, "] \"" + (n.name + ("\"" + "")));
    hide Quote, IndexOf, Value, Decimal;
    assert ("[heading:" + d)[1] == 'h';
  }

  lemma TextIsRead(n: AXNode)
    requires !n.actionable && n.role != "heading" && n.name != "" && Sayable(n)
    ensures ReadLine(LineOf(n)) == ToSay(n)
  {
    QuoteOf("text: \"", n.name, "\"", "");
    StartsWith("text: \"", n.name, "\"" + "");
    hide Quote;
    assert LineOf(n) == "text: \"" + (n.name + ("\"" + ""));
    assert LineOf(n)[0] == 't';
  }

  lemma LineHasNoBreak(n: AXNode)
    requires Sayable(n)
    ensures '\n' !in LineOf(n)
  {
    hide IsActionableRole;
    if n.actionable {
      RoleIsWord(n.role);
    }
    OptionalHasNoBreak(n.name, " \"", "\"");
    OptionalHasNoBreak(n.value, " (value=\"", "\")");
    OptionalHasNoBreak(n.description, " (desc=\"", "\")");
    hide Optional;
  }

  lemma OptionalHasNoBreak(text: string, open: string, close: string)
    requires '\n' !in text && '\n' !in open && '\n' !in close
    ensures '\n' !in Optional(text, open, close)
  {
  }

  // ----- Reading trees -----

  lemma FirstLineIsRead(line: string, rest: string)
    requires '\n' !in line
    ensures ReadTree(line + "\n" + rest) == OneOrNone(ReadLine(line)) + ReadTree(rest)
  {
    hide ReadLine;
    IndexOfFirst(line, '\n', rest);
    var s := line + "\n" + rest;
    assert s == line + ['\n'] + rest;
    assert s[..|line|] == line && s[|line| + 1..] == rest;
  }

  /** Whole lines are read one behind the other. */
  lemma {:induction false} ReadConcat(a: string, b: string)
    requires a == "" || a[|a| - 1] == '\n'
    ensures ReadTree(a + b) == ReadTree(a) + ReadTree(b)
    decreases |a|
  {
    hide *;
    EmptyIsRead();
    if a == "" {
      assert a + b == b;
    } else {
      var line, rest := SplitLine(a);
      FirstLineIsRead(line, rest);
      FirstLineIsRead(line, rest + b);
      ReadConcat(rest, b);
      Later(line, rest, b);
    }
  }

  lemma Later(line: string, rest: string, b: string)
    ensures line + "\n" + rest + b == line + "\n" + (rest + b)
  {
  }

  /** The first of some whole lines. */
  lemma SplitLine(a: string) returns (line: string, rest: string)
    requires a != "" && a[|a| - 1] == '\n'
    ensures a == line + "\n" + rest && '\n' !in line && (rest == "" || rest[|rest| - 1] == '\n')
  {
    var n := IndexOf(a, '\n');
    assert a[..|a|] == a && '\n' in a;
    line, rest := a[..n], a[n + 1..];
  }

  /** The line of one node. */
  lemma NodeIsRead(n: AXNode)
    requires Sayable(n)
    ensures ReadTree(Joined(Pieces(n))) == OneOrNone(ToSay(n))
    ensures Joined(Pieces(n)) == "" || Joined(Pieces(n))[|Joined(Pieces(n))| - 1] == '\n'
  {
    hide Sayable, ReadLine, LineOf;
    if ToSay(n).None? {
      NothingSaid(n);
    } else {
      if n.actionable {
        ControlPieces(n);
        ControlIsRead(n);
      } else {
        if n.role == "heading" {
          HeadingPieces(n);
          HeadingIsRead(n);
        } else {
          TextPieces(n);
          TextIsRead(n);
        }
      }
      hide Pieces, Joined, ToSay;
      LineHasNoBreak(n);
      FirstLineIsRead(LineOf(n), "");
      EmptyIsRead();
      assert LineOf(n) + "\n" + "" == LineOf(n) + "\n";
    }
  }

  lemma NothingSaid(n: AXNode)
    requires ToSay(n).None?
    ensures Joined(Pieces(n)) == "" && ReadTree("") == []
  {
  }

  /** The printed tree of nodes with strings that lines can quote says exactly what is to be said of them, in
      their order. */
  lemma {:induction false} TreeIsRead(nodes: seq<AXNode>)
    requires forall n :: n in nodes ==> Sayable(n)
    ensures ReadTree(Rendered(nodes)) == AllToSay(nodes)
    ensures Rendered(nodes) == "" || Rendered(nodes)[|Rendered(nodes)| - 1] == '\n'
    decreases |nodes|
  {
    hide Sayable, Joined, Pieces, ReadTree, ToSay;
    if nodes == [] {
      EmptyIsRead();
    } else {
      var last, before := nodes[|nodes| - 1], nodes[..|nodes| - 1];
      TreeIsRead(before);
      NodeIsRead(last);
      ReadConcat(Rendered(before), Joined(Pieces(last)));
    }
  }

  lemma EmptyIsRead()
    ensures ReadTree("") == []
  {
  }

  // ----- The filter -----

  /** The actionable nodes are those with an actionable role. */
  predicate RolesTell(nodes: seq<AXNode>) {
    forall i :: 0 <= i < |nodes| ==> (nodes[i].actionable <==> IsActionableRole(nodes[i].role))
  }

  lemma StepRoles(t: Tree, obj: string, cap: nat)
    requires RolesTell(t.nodes)
    ensures RolesTell(Step(t, obj, cap).nodes)
  {
    MakeNodeFacts(obj);
    hide MakeNode, IsActionableRole, Skipped, AppendAll, Pieces;
  }

  lemma {:induction false} FilterAllRoles(t: Tree, objs: seq<string>, cap: nat)
    requires RolesTell(t.nodes)
    ensures RolesTell(FilterAll(t, objs, cap).nodes)
    decreases |objs|
  {
    hide Step, RolesTell;
    if objs != [] && !t.full {
      StepRoles(t, objs[0], cap);
      FilterAllRoles(Step(t, objs[0], cap), objs[1..], cap);
    }
  }

  predicate AllPlain(nodes: seq<AXNode>) {
    forall n :: n in nodes ==> Plain(n.name) && Plain(n.value) && Plain(n.description)
  }

  /** The text of the filter says of every listed node, in order, its handle, role, name, value and description,
      or its level and name, or its name, when the lines fit and can be quoted. */
  lemma FilteredIsRead(json: string, handles: nat, cap: nat)
    ensures Filtered(json, handles, cap).Some? ==>
              var t := Filtered(json, handles, cap).value;
              |Rendered(t.nodes)| <= cap && AllPlain(t.nodes) ==> ReadTree(t.text) == AllToSay(t.nodes)
  {
    if Filtered(json, handles, cap).Some? {
      var t := Filtered(json, handles, cap).value;
      FilterIsLawful(json, handles, cap);
      FilterAllRoles(Empty(handles), JsonScan.Slices(NodesText(json).value), cap);
      hide FilterAll, JsonScan.Slices, NodesText, ReadTree, Rendered, HandleLaw, Plain, AllToSay, IsActionableRole;
      if |Rendered(t.nodes)| <= cap && AllPlain(t.nodes) {
        TreeIsRead(t.nodes);
      }
    }
  }

  /** The filter as it runs, and its text read back. */
  method FilterAndRead(json: string, outNodes: FixedVector<AXNode>, outText: array<char>, outMap: array<int>)
    returns (r: Option<nat>)
    requires outNodes.Valid() && outNodes.data.Length == MAX_AX_NODES
    modifies outNodes, outNodes.data, outText, outMap
    ensures outNodes.Valid() && (r.Some? ==> r.value <= outText.Length)
    ensures r.Some? && |Rendered(outNodes.AsSpan())| <= outText.Length && AllPlain(outNodes.AsSpan()) ==>
              ReadTree(outText[..r.value]) == AllToSay(outNodes.AsSpan())
  {
    FilteredIsRead(json, outMap.Length, outText.Length);
    hide Filtered, Rendered, AllPlain, ReadTree, AllToSay;
    r := FilterAndFormat(json, outNodes, outText, outMap);
  }
}
