/** `AXTreeFilter` of `include/axiom/cdp.hpp`: field lookup by text search, filtering, the
    handle map and the printed tree. */
module AxTree {
  import opened Search
  import opened JsonScan
  import opened DecimalText
  import opened FixedVectors

  const MAX_AX_NODES: nat := 256
  const MAX_HANDLES: nat := 256

  datatype AXNode = AXNode(handle: nat, backendDomNodeId: int, role: string, name: string, value: string,
                           description: string, headingLevel: nat, actionable: bool, focused: bool, disabled: bool)

  predicate IsActionableRole(role: string) {
    role in {"button", "link", "textbox", "searchbox", "checkbox", "radio", "combobox", "listbox",
             "menuitem", "menuitemcheckbox", "menuitemradio", "tab", "switch", "slider", "spinbutton",
             "treeitem"}
  }

  predicate IsLayoutRole(role: string) {
    role in {"none", "generic", "genericContainer", "LineBreak", "InlineTextBox", "RootWebArea",
             "group", "Section", "paragraph", "LayoutTable", "LayoutTableRow", "LayoutTableCell", "Ignored"}
  }

  // ----- Field lookup: the first textual occurrence of the field's name -----

  predicate Blank(c: char, newline: bool) { c == ' ' || c == '\t' || (newline && c == '\n') }

  function SkipBlanks(s: string, i: nat, newline: bool): (j: nat)
    requires i <= |s|
    ensures i <= j <= |s|
    decreases |s| - i
  {
    if i < |s| && Blank(s[i], newline) then SkipBlanks(s, i + 1, newline) else i
  }

  /** The index of the closing quote, or the length. */
  function StringEnd(s: string, i: nat, escape: bool): (j: nat)
    requires i <= |s|
    ensures i <= j <= |s|
    decreases |s| - i
  {
    if i == |s| then i
    else if escape then StringEnd(s, i + 1, false)
    else if s[i] == '\\' then StringEnd(s, i + 1, true)
    else if s[i] == '"' then i
    else StringEnd(s, i + 1, false)
  }

  /** Behind the colon that follows the first `field` at or after `from`. */
  function BehindColon(s: string, field: string, from: nat): (r: Option<nat>)
    ensures r.Some? ==> r.value <= |s|
  {
    match Find(s, field, from)
    case None => None
    case Some(pos) =>
      match Find(s, ":", pos + |field|)
      case None => None
      case Some(colon) => Some(colon + 1)
  }

  /** Where the value of a field starts; an object value is entered at its first `"value"`. */
  function ValueStart(obj: string, field: string): (r: Option<nat>)
    ensures r.Some? ==> r.value <= |obj|
  {
    match BehindColon(obj, field, 0)
    case None => None
    case Some(start) =>
      var at := SkipBlanks(obj, start, true);
      if at < |obj| && obj[at] == '{' then
        match BehindColon(obj, "\"value\"", at)
        case None => None
        case Some(inner) => Some(SkipBlanks(obj, inner, false))
      else Some(at)
  }

  function FieldStr(obj: string, field: string): string {
    match ValueStart(obj, field)
    case None => ""
    case Some(at) => if at >= |obj| || obj[at] != '"' then "" else obj[at + 1..StringEnd(obj, at + 1, false)]
  }

  function FieldBool(obj: string, field: string): bool {
    match BehindColon(obj, field, 0)
    case None => false
    case Some(start) => OccursAt(obj, "true", SkipBlanks(obj, start, true))
  }

  function DigitRun(s: string, i: nat, acc: nat): (nat, nat)
    requires i <= |s|
    decreases |s| - i
  {
    if i < |s| && IsDigit(s[i]) then DigitRun(s, i + 1, 10 * acc + (s[i] as int - '0' as int)) else (i, acc)
  }

  /** `std::from_chars` for int32_t, with 0 for its error returns. */
  function FromChars(s: string, at: nat): int
    requires at <= |s|
  {
    var neg := at < |s| && s[at] == '-';
    var from := if neg then at + 1 else at;
    var (end, magnitude) := DigitRun(s, from, 0);
    var val: int := if neg then -(magnitude as int) else magnitude;
    if end == from || val < -0x8000_0000 || val > 0x7FFF_FFFF then 0 else val
  }

  /** Unlike for strings, an object value without `"value"` is not skipped; it reads as 0. */
  function FieldInt(obj: string, field: string): int {
    match BehindColon(obj, field, 0)
    case None => 0
    case Some(start) =>
      var at := SkipBlanks(obj, start, true);
      if at < |obj| && obj[at] == '{' then
        match BehindColon(obj, "\"value\"", at)
        case None => FromChars(obj, at)
        case Some(inner) => FromChars(obj, SkipBlanks(obj, inner, false))
      else FromChars(obj, at)
  }

  method SkipBlanksFrom(s: string, i: nat, newline: bool) returns (j: nat)
    requires i <= |s|
    ensures j == SkipBlanks(s, i, newline)
  {
    j := i;
    while j < |s| && Blank(s[j], newline)
      invariant i <= j <= |s| && SkipBlanks(s, j, newline) == SkipBlanks(s, i, newline)
      decreases |s| - j
    {
      j := j + 1;
    }
  }

  /** The escape-aware search for the closing quote. */
  method ScanString(obj: string, strStart: nat) returns (strEnd: nat)
    requires strStart <= |obj|
    ensures strEnd == StringEnd(obj, strStart, false)
  {
    strEnd := strStart;
    var escape := false;
    while strEnd < |obj|
      invariant strStart <= strEnd <= |obj|
      invariant StringEnd(obj, strEnd, escape) == StringEnd(obj, strStart, false)
      decreases |obj| - strEnd
    {
      if escape {
        escape := false;
      } else if obj[strEnd] == '\\' {
        escape := true;
      } else if obj[strEnd] == '"' {
        break;
      }
      strEnd := strEnd + 1;
    }
  }

  method ExtractFieldStr(obj: string, field: string) returns (r: string)
    ensures r == FieldStr(obj, field)
  {
    hide BehindColon, SkipBlanks, StringEnd;
    match BehindColon(obj, field, 0) {
      case None => return "";
      case Some(start) =>
        var afterColon := SkipBlanksFrom(obj, start, true);
        if afterColon < |obj| && obj[afterColon] == '{' {
          match BehindColon(obj, "\"value\"", afterColon) {
            case None => return "";
            case Some(inner) => afterColon := SkipBlanksFrom(obj, inner, false);
          }
        }
        if afterColon >= |obj| || obj[afterColon] != '"' {
          return "";
        }
        var strStart := afterColon + 1;
        var strEnd := ScanString(obj, strStart);
        return obj[strStart..strEnd];
    }
  }

  method ExtractFieldInt(obj: string, field: string) returns (val: int)
    ensures val == FieldInt(obj, field)
  {
    hide BehindColon, SkipBlanks, FromChars;
    match BehindColon(obj, field, 0) {
      case None => return 0;
      case Some(start) =>
        var cur := SkipBlanksFrom(obj, start, true);
        if cur < |obj| && obj[cur] == '{' {
          match BehindColon(obj, "\"value\"", cur) {
            case None =>
            case Some(inner) => cur := SkipBlanksFrom(obj, inner, false);
          }
        }
        return FromChars(obj, cur);
    }
  }

  method ExtractFieldBool(obj: string, field: string) returns (val: bool)
    ensures val == FieldBool(obj, field)
  {
    match BehindColon(obj, field, 0) {
      case None => return false;
      case Some(start) =>
        var cur := SkipBlanksFrom(obj, start, true);
        return OccursAt(obj, "true", cur);
    }
  }

  // ----- Filtering -----

  /** The node that an object text describes, before a handle is given out. */
  function MakeNode(obj: string): AXNode {
    var role := FieldStr(obj, "\"role\"");
    var level := FieldInt(obj, "\"level\"") % 0x1_0000_0000;
    AXNode(0, FieldInt(obj, "\"backendDOMNodeId\""), role, FieldStr(obj, "\"name\""), FieldStr(obj, "\"value\""),
           FieldStr(obj, "\"description\""), if role != "heading" then 0 else if level == 0 then 1 else level,
           IsActionableRole(role), FieldBool(obj, "\"focused\""), FieldBool(obj, "\"disabled\""))
  }

  predicate Repeats(nodes: seq<AXNode>, name: string) {
    exists i :: 0 <= i < |nodes| && (nodes[i].name == name || nodes[i].value == name)
  }

  predicate Skipped(nodes: seq<AXNode>, obj: string) {
    var role := FieldStr(obj, "\"role\"");
    var name := FieldStr(obj, "\"name\"");
    || FieldBool(obj, "\"ignored\"")
    || IsLayoutRole(role)
    || (role == "StaticText" && (name == "" || Repeats(nodes, name)))
  }

  /** The pieces of a node's line, each of which is appended whole or not at all. */
  function Pieces(n: AXNode): seq<string> {
    if n.actionable then
      ["[@", Decimal(n.handle), "] ", n.role]
      + (if n.name == "" then [] else [" \"", n.name, "\""])
      + (if n.value == "" then [] else [" (value=\"", n.value, "\")"])
      + (if n.description == "" then [] else [" (desc=\"", n.description, "\")"])
      + ["\n"]
    else if n.role == "heading" then ["[heading:", Decimal(n.headingLevel), "] \"", n.name, "\"\n"]
    else if n.name == "" then []
    else ["text: \"", n.name, "\"\n"]
  }

  function AppendAll(text: string, pieces: seq<string>, cap: nat): string
    decreases pieces
  {
    if pieces == [] then text
    else AppendAll(if |text| + |pieces[0]| <= cap then text + pieces[0] else text, pieces[1..], cap)
  }

  /** The outputs of the filter so far; `full` once a node was refused. */
  datatype Tree = Tree(nodes: seq<AXNode>, map_: seq<int>, handle: nat, text: string, full: bool)

  /** The next handle is given out while it is below both limits. */
  predicate Grants(t: Tree, n: AXNode) {
    n.actionable && t.handle + 1 < MAX_HANDLES && t.handle + 1 < |t.map_|
  }

  function Step(t: Tree, obj: string, cap: nat): Tree {
    if Skipped(t.nodes, obj) then t
    else
      var n := MakeNode(obj);
      var grant := Grants(t, n);
      var h := if grant then t.handle + 1 else t.handle;
      var node := if grant then n.(handle := h) else n;
      var map_ := if grant then t.map_[h := n.backendDomNodeId] else t.map_;
      if |t.nodes| >= MAX_AX_NODES then Tree(t.nodes, map_, h, t.text, true)
      else Tree(t.nodes + [node], map_, h, AppendAll(t.text, Pieces(node), cap), false)
  }

  function FilterAll(t: Tree, objs: seq<string>, cap: nat): Tree
    decreases objs
  {
    if objs == [] || t.full then t else FilterAll(Step(t, objs[0], cap), objs[1..], cap)
  }

  function Zeros(n: nat): (s: seq<int>)
    ensures |s| == n && forall i :: 0 <= i < n ==> s[i] == 0
  {
    seq(n, _ => 0)
  }

  function Empty(handles: nat): Tree { Tree([], Zeros(handles), 0, "", false) }

  /** The text behind the '[' that follows the first `"nodes"`. */
  function NodesText(json: string): Option<string> {
    match Find(json, "\"nodes\"", 0)
    case None => None
    case Some(pos) =>
      match Find(json, "[", pos)
      case None => None
      case Some(bracket) => Some(json[bracket + 1..])
  }

  /** The whole filter: None stands for its ProtocolError. */
  function Filtered(json: string, handles: nat, cap: nat): Option<Tree> {
    match NodesText(json)
    case None => None
    case Some(s) => Some(FilterAll(Empty(handles), Slices(s), cap))
  }

  // ----- The filter as it runs -----

  /** Appends a string when it fits. */
  method AppendToBuf(buf: array<char>, offset: nat, str: string) returns (after: nat)
    requires offset <= buf.Length
    modifies buf
    ensures after == if offset + |str| <= buf.Length then offset + |str| else offset
    ensures buf[..after] == AppendAll(old(buf[..offset]), [str], buf.Length)
  {
    if offset + |str| > buf.Length {
      return offset;
    }
    forall i | 0 <= i < |str| {
      buf[offset + i] := str[i];
    }
    assert buf[..offset + |str|] == old(buf[..offset]) + str;
    return offset + |str|;
  }

  method AppendPieces(buf: array<char>, offset: nat, pieces: seq<string>) returns (after: nat)
    requires offset <= buf.Length
    modifies buf
    ensures after <= buf.Length && buf[..after] == AppendAll(old(buf[..offset]), pieces, buf.Length)
  {
    after := offset;
    for i := 0 to |pieces|
      invariant after <= buf.Length
      invariant AppendAll(buf[..after], pieces[i..], buf.Length) == AppendAll(old(buf[..offset]), pieces, buf.Length)
    {
      assert pieces[i..][0] == pieces[i] && pieces[i..][1..] == pieces[i + 1..];
      after := AppendToBuf(buf, after, pieces[i]);
    }
  }

  /** The inner loop: from '{' to the end of the object. The depth never goes below one before
      the object ends, so that its decrement never wraps. */
  method ScanObject(json: string, start: nat) returns (cur: nat)
    requires start < |json| && json[start] == '{'
    ensures cur == start + ObjLen(json[start..], START)
  {
    cur := start;
    var depth: nat, inStr, esc := 0, false, false;
    while cur < |json|
      invariant start <= cur <= |json| && (cur > start ==> depth >= 1) && (cur == start ==> !esc && !inStr)
      invariant (cur - start) + ObjLen(json[cur..], Scan(depth, inStr, esc)) == ObjLen(json[start..], START)
      decreases |json| - cur
    {
      var c := json[cur];
      assert json[cur..][0] == c && json[cur..][1..] == json[cur + 1..];
      if esc {
        esc := false;
      } else if c == '\\' {
        esc := true;
      } else if c == '"' {
        inStr := !inStr;
      } else if !inStr {
        if c == '{' {
          depth := depth + 1;
        } else if c == '}' {
          depth := depth - 1;
          if depth == 0 {
            cur := cur + 1;
            return;
          }
        }
      }
      cur := cur + 1;
    }
  }

  /** The loop over earlier nodes that finds a repeated text. */
  method FindRepeat(nodes: FixedVector<AXNode>, name: string) returns (duplicate: bool)
    requires nodes.Valid()
    ensures duplicate == Repeats(nodes.AsSpan(), name)
  {
    for i := 0 to nodes.size
      invariant forall j :: 0 <= j < i ==> nodes.data[j].name != name && nodes.data[j].value != name
    {
      if nodes.data[i].name == name || nodes.data[i].value == name {
        assert nodes.AsSpan()[i] == nodes.data[i];
        return true;
      }
    }
    return false;
  }

  /** What the out-parameters hold. */
  ghost function TreeOf(outNodes: FixedVector<AXNode>, outText: array<char>, outMap: array<int>,
                        handle: nat, offset: nat, full: bool): Tree
    requires outNodes.Valid() && offset <= outText.Length
    reads outNodes, outNodes.data, outText, outMap
  {
    Tree(outNodes.AsSpan(), outMap[..], handle, outText[..offset], full)
  }

  /** Whether an object is left out, with the node it would make. */
  method Examine(obj: string, outNodes: FixedVector<AXNode>) returns (skip: bool, node: AXNode)
    requires outNodes.Valid()
    ensures skip == Skipped(outNodes.AsSpan(), obj)
    ensures !skip ==> node == MakeNode(obj)
  {
    node := AXNode(0, 0, "", "", "", "", 0, false, false, false);
    var ignored := ExtractFieldBool(obj, "\"ignored\"");
    if ignored {
      return true, node;
    }
    var role := ExtractFieldStr(obj, "\"role\"");
    if IsLayoutRole(role) {
      return true, node;
    }
    var name := ExtractFieldStr(obj, "\"name\"");
    var value := ExtractFieldStr(obj, "\"value\"");
    var desc := ExtractFieldStr(obj, "\"description\"");
    var backendId := ExtractFieldInt(obj, "\"backendDOMNodeId\"");
    var isAction := IsActionableRole(role);
    if role == "StaticText" {
      if name == "" {
        return true, node;
      }
      var duplicate := FindRepeat(outNodes, name);
      if duplicate {
        return true, node;
      }
    }
    var focused := ExtractFieldBool(obj, "\"focused\"");
    var disabled := ExtractFieldBool(obj, "\"disabled\"");
    var headingLevel := 0;
    if role == "heading" {
      var level := ExtractFieldInt(obj, "\"level\"");
      headingLevel := level % 0x1_0000_0000;
      if headingLevel == 0 {
        headingLevel := 1;
      }
    }
    return false, AXNode(0, backendId, role, name, value, desc, headingLevel, isAction, focused, disabled);
  }

  /** One object: filtered out, or given a handle if it is actionable, stored and printed. */
  method AddObject(obj: string, outNodes: FixedVector<AXNode>, outText: array<char>, outMap: array<int>,
                   handle0: nat, offset0: nat) returns (handle: nat, offset: nat, full: bool)
    requires outNodes.Valid() && outNodes.data.Length == MAX_AX_NODES && offset0 <= outText.Length
    modifies outNodes, outNodes.data, outText, outMap
    ensures outNodes.Valid() && offset <= outText.Length
    ensures TreeOf(outNodes, outText, outMap, handle, offset, full)
         == Step(old(TreeOf(outNodes, outText, outMap, handle0, offset0, false)), obj, outText.Length)
  {
    hide Skipped, MakeNode, Pieces, AppendAll;
    handle, offset, full := handle0, offset0, false;
    var skip, node := Examine(obj, outNodes);
    if skip {
      return;
    }
    if node.actionable {
      if handle + 1 < MAX_HANDLES && handle + 1 < outMap.Length {
        handle := handle + 1;
        node := node.(handle := handle);
        outMap[handle] := node.backendDomNodeId;
      }
    }
    var pushed := outNodes.PushBack(node);
    if !pushed {
      full := true;
      return;
    }
    offset := AppendPieces(outText, offset, Pieces(node));
  }

  /** The whole filter over its out-parameters. It terminates on any text at all. */
  method FilterAndFormat(json: string, outNodes: FixedVector<AXNode>, outText: array<char>, outMap: array<int>)
    returns (r: Option<nat>)
    requires outNodes.Valid() && outNodes.data.Length == MAX_AX_NODES
    modifies outNodes, outNodes.data, outText, outMap
    ensures outNodes.Valid() && (r.Some? ==> r.value <= outText.Length)
    ensures match Filtered(json, outMap.Length, outText.Length)
            case None => r == None && outNodes.AsSpan() == [] && outMap[..] == Zeros(outMap.Length)
            case Some(t) =>
              && r.Some?
              && outNodes.AsSpan() == t.nodes && outMap[..] == t.map_ && outText[..r.value] == t.text
  {
    outNodes.Clear();
    forall i | 0 <= i < outMap.Length {
      outMap[i] := 0;
    }
    assert outMap[..] == Zeros(outMap.Length);
    var s;
    match NodesText(json) {
      case None => return None;
      case Some(text) => s := text;
    }
    var cur: nat, handle: nat, offset: nat, full, more := 0, 0, 0, false, true;
    assert s[0..] == s;
    while cur < |s| && !full && more
      invariant outNodes.Valid() && offset <= outText.Length && cur <= |s|
      invariant Remaining(outNodes, outText, outMap, handle, offset, full, s[cur..])
             == FilterAll(Empty(outMap.Length), Slices(s), outText.Length)
      invariant !more ==> Slices(s[cur..]) == []
      decreases |s| - cur, more
    {
      cur, handle, offset, full, more := FilterNext(s, cur, outNodes, outText, outMap, handle, offset);
    }
    return Some(offset);
  }

  /** Where the outputs are going, with the text from `rest` still to be filtered. */
  ghost function Remaining(outNodes: FixedVector<AXNode>, outText: array<char>, outMap: array<int>,
                           handle: nat, offset: nat, full: bool, rest: string): Tree
    requires outNodes.Valid() && offset <= outText.Length
    reads outNodes, outNodes.data, outText, outMap
  {
    FilterAll(TreeOf(outNodes, outText, outMap, handle, offset, full), Slices(rest), outText.Length)
  }

  /** One round of the outer loop: skip to the next object, cut it out and add it. */
  method FilterNext(s: string, cur0: nat, outNodes: FixedVector<AXNode>, outText: array<char>, outMap: array<int>,
                    handle0: nat, offset0: nat) returns (cur: nat, handle: nat, offset: nat, full: bool, more: bool)
    requires cur0 < |s| && outNodes.Valid() && outNodes.data.Length == MAX_AX_NODES && offset0 <= outText.Length
    modifies outNodes, outNodes.data, outText, outMap
    ensures outNodes.Valid() && offset <= outText.Length && cur0 <= cur <= |s|
    ensures Remaining(outNodes, outText, outMap, handle, offset, full, s[cur..])
         == old(Remaining(outNodes, outText, outMap, handle0, offset0, false, s[cur0..]))
    ensures if more then cur > cur0 else Slices(s[cur..]) == []
  {
    hide Slices, ObjLen, Step;
    var start := SkipToObject(s, cur0);
    SlicesFrom(s, cur0);
    if start == |s| || s[start] == ']' {
      return cur0, handle0, offset0, false, false;
    }
    cur := ScanObject(s, start);
    assert s[start..cur] == ObjectAt(s, start) && s[cur..] == After(s, start);
    handle, offset, full := AddObject(s[start..cur], outNodes, outText, outMap, handle0, offset0);
    more := true;
  }

  /** The skipping loop. */
  method SkipToObject(s: string, from: nat) returns (cur: nat)
    requires from <= |s|
    ensures cur == from + SkipLen(s[from..])
  {
    cur := from;
    while cur < |s| && s[cur] != '{' && s[cur] != ']'
      invariant from <= cur <= |s| && (cur - from) + SkipLen(s[cur..]) == SkipLen(s[from..])
      decreases |s| - cur
    {
      assert s[cur..][0] == s[cur] && s[cur..][1..] == s[cur + 1..];
      cur := cur + 1;
    }
  }
}
