/** Symbol collection of `include/axiom/ast.hpp` over an abstract syntax tree. */
module Ast {
  import opened FixedVectors
  import opened Search

  const MAX_SYMBOLS: nat := 256
  const MAX_SYMBOL_NAME_LEN: nat := 96

  datatype Lang = Unknown | C | Cpp | Go | Rust | Python | TypeScript | JavaScript

  datatype SymbolKind = UnknownKind | Function | Method | Class | Struct | Enum | Interface | TypeAlias | Import

  datatype SymbolInfo =
    SymbolInfo(kind: SymbolKind, name: string, startLine: nat, endLine: nat, startByte: nat, endByte: nat)

  /** What the parser hands out: byte ranges, rows, and children that may be named and may stand
      in a field of their parent. */
  datatype Node = Null | Node(kind: string, named: bool, field: string, start: nat, end: nat,
                              startRow: nat, endRow: nat, children: seq<Node>)

  /** Children are real nodes, in order, disjoint, and inside their parent. */
  predicate TreeOk(n: Node)
    decreases n, 1
  {
    n.Node? ==> n.start <= n.end && Siblings(n.children, n.start, n.end)
  }

  /** Well-formed nodes one behind the other between two offsets. */
  predicate Siblings(cs: seq<Node>, lo: nat, hi: nat)
    decreases cs, 0
  {
    if cs == [] then lo <= hi
    else cs[0].Node? && TreeOk(cs[0]) && lo <= cs[0].start && Siblings(cs[1..], cs[0].end, hi)
  }

  // ----- Access to nodes -----

  function KindOf(n: Node): string { if n.Null? then "" else n.kind }

  function NodeText(n: Node, src: string): string {
    if n.Null? || n.start >= |src| || n.end > |src| || n.start >= n.end then "" else src[n.start..n.end]
  }

  function NamedOf(cs: seq<Node>): (r: seq<Node>)
    ensures forall c :: c in r ==> c in cs && c.Node?
    decreases cs
  {
    if cs == [] then [] else (if cs[0].Node? && cs[0].named then [cs[0]] else []) + NamedOf(cs[1..])
  }

  function NamedChildren(n: Node): (r: seq<Node>)
    ensures forall c :: c in r ==> n.Node? && c in n.children && c.Node?
  {
    if n.Null? then [] else NamedOf(n.children)
  }

  function FirstInField(cs: seq<Node>, field: string): (r: Node)
    ensures r.Node? ==> r in cs && r.field == field
    decreases cs
  {
    if cs == [] then Null else if cs[0].Node? && cs[0].field == field then cs[0] else FirstInField(cs[1..], field)
  }

  function ChildByField(n: Node, field: string): (r: Node)
    ensures r.Node? ==> n.Node? && r in n.children
  {
    if n.Null? then Null else FirstInField(n.children, field)
  }

  /** The first node of one of the kinds, the node itself included, in preorder. */
  function FindDescendant(n: Node, kinds: set<string>): Node
    decreases n, 1
  {
    if n.Null? then Null else if n.kind in kinds then n else FindAmong(n.children, kinds)
  }

  function FindAmong(cs: seq<Node>, kinds: set<string>): Node
    decreases cs, 0
  {
    if cs == [] then Null
    else
      var r := FindDescendant(cs[0], kinds);
      if r.Node? then r else FindAmong(cs[1..], kinds)
  }

  function Trim(s: string, drop: set<char>): string
    decreases s
  {
    if s != "" && s[|s| - 1] in drop then Trim(s[..|s| - 1], drop) else s
  }

  // ----- Recording -----

  function Cut<T>(s: seq<T>, n: nat): (t: seq<T>)
    ensures |t| == if |s| <= n then |s| else n
  {
    if |s| <= n then s else s[..n]
  }

  /** Methods carry their scope; the whole name is cut to 95 characters. */
  function RecordedName(k: SymbolKind, name: string, scope: string): (r: string)
    ensures |r| < MAX_SYMBOL_NAME_LEN && (name != "" ==> r != "")
  {
    var prefix := if scope != "" && k == Method then Cut(scope, MAX_SYMBOL_NAME_LEN - 3) + "::" else "";
    prefix + Cut(name, MAX_SYMBOL_NAME_LEN - 1 - |prefix|)
  }

  /** A method's name is its qualified name, cut to 95 characters, unless the scope leaves no room. */
  lemma MethodName(name: string, scope: string)
    ensures 0 < |scope| <= MAX_SYMBOL_NAME_LEN - 3 ==>
              RecordedName(Method, name, scope) == Cut(scope + "::" + name, MAX_SYMBOL_NAME_LEN - 1)
    ensures |scope| > MAX_SYMBOL_NAME_LEN - 3 ==>
              RecordedName(Method, name, scope) == scope[..MAX_SYMBOL_NAME_LEN - 3] + "::"
    ensures scope == "" ==> RecordedName(Method, name, scope) == Cut(name, MAX_SYMBOL_NAME_LEN - 1)
    ensures forall k :: k != Method ==> RecordedName(k, name, scope) == Cut(name, MAX_SYMBOL_NAME_LEN - 1)
  {
  }

  function Info(k: SymbolKind, name: string, n: Node, scope: string): SymbolInfo
    requires n.Node?
  {
    SymbolInfo(k, RecordedName(k, name, scope), n.startRow + 1, n.endRow + 1, n.start, n.end)
  }

  /** At most one symbol, with the node's own range and lines and a bounded name. */
  predicate OwnRecord(records: seq<SymbolInfo>, n: Node)
    requires n.Node?
  {
    |records| <= 1 && forall s :: s in records ==>
      && s.startByte == n.start && s.endByte == n.end && 0 < |s.name| < MAX_SYMBOL_NAME_LEN
      && s.startLine == n.startRow + 1 && s.endLine == n.endRow + 1
  }

  /** A symbol without a name is not recorded. */
  function Record(k: SymbolKind, name: string, n: Node, scope: string): (r: seq<SymbolInfo>)
    requires n.Node?
    ensures OwnRecord(r, n)
  {
    if name == "" then [] else [Info(k, name, n, scope)]
  }

  // ----- What one node contributes -----

  /** The symbols recorded at a node, the nodes visited below it, and their scope. */
  datatype Plan = Plan(records: seq<SymbolInfo>, visits: seq<Node>, scope: string)

  function Leaf(records: seq<SymbolInfo>): Plan { Plan(records, [], "") }

  function Named(k: SymbolKind, n: Node, src: string, scope: string): Plan
    requires n.Node?
  {
    Leaf(Record(k, NodeText(ChildByField(n, "name"), src), n, scope))
  }

  function ScopedKind(scope: string): SymbolKind { if scope == "" then Function else Method }

  /** A class: recorded, and its body visited under its name. */
  function ClassPlan(k: SymbolKind, n: Node, src: string, scope: string): Plan
    requires n.Node?
  {
    var name := NodeText(ChildByField(n, "name"), src);
    Plan(Record(k, name, n, scope), NamedChildren(ChildByField(n, "body")), name)
  }

  function ImportPlan(n: Node, src: string, scope: string, drop: set<char>): Plan
    requires n.Node?
  {
    Leaf(Record(Import, Trim(NodeText(n, src), drop), n, scope))
  }

  function OfKinds(ns: seq<Node>, kinds: set<string>): (r: seq<Node>)
    ensures forall n :: n in r ==> n in ns
    decreases ns
  {
    if ns == [] then [] else (if KindOf(ns[0]) in kinds then [ns[0]] else []) + OfKinds(ns[1..], kinds)
  }

  function FallThrough(n: Node, scope: string): Plan { Plan([], NamedChildren(n), scope) }

  const TEMPLATED := {"function_definition", "class_specifier", "struct_specifier"}
  const DECLARED := {"class_specifier", "struct_specifier", "enum_specifier"}

  function CPlan(n: Node, src: string, scope: string): Plan
    requires n.Node?
  {
    if n.kind == "function_definition" then
      var id := FindDescendant(ChildByField(n, "declarator"),
                               {"identifier", "field_identifier", "qualified_identifier", "destructor_name"});
      var k := if scope != "" || KindOf(id) == "qualified_identifier" then Method else Function;
      Leaf(Record(k, NodeText(id, src), n, scope))
    else if n.kind == "class_specifier" then ClassPlan(Class, n, src, scope)
    else if n.kind == "struct_specifier" then ClassPlan(Struct, n, src, scope)
    else if n.kind == "enum_specifier" then Named(Enum, n, src, scope)
    else if n.kind == "type_definition" then
      var id := FindDescendant(ChildByField(n, "declarator"), {"type_identifier", "identifier"});
      Leaf(Record(TypeAlias, NodeText(id, src), n, scope))
    else if n.kind == "preproc_include" then ImportPlan(n, src, scope, {'\n', '\r'})
    else if n.kind == "template_declaration" then
      Plan([], OfKinds(NamedChildren(n), TEMPLATED), scope)
    else if n.kind == "declaration" then
      Plan([], OfKinds(NamedChildren(n), DECLARED), scope)
    else FallThrough(n, scope)
  }

  function RustPlan(n: Node, src: string, scope: string): Plan
    requires n.Node?
  {
    if n.kind == "function_item" then Named(ScopedKind(scope), n, src, scope)
    else if n.kind == "struct_item" then Named(Struct, n, src, scope)
    else if n.kind == "enum_item" then Named(Enum, n, src, scope)
    else if n.kind == "trait_item" then Named(Interface, n, src, scope)
    else if n.kind == "use_declaration" then ImportPlan(n, src, scope, {'\n', '\r', ';'})
    else if n.kind == "impl_item" then
      Plan([], NamedChildren(ChildByField(n, "body")), NodeText(ChildByField(n, "type"), src))
    else FallThrough(n, scope)
  }

  function SpecRecord(n: Node, src: string, scope: string): (r: seq<SymbolInfo>)
    requires n.Node?
    ensures OwnRecord(r, n)
  {
    var kind := KindOf(ChildByField(n, "type"));
    var k := if kind == "struct_type" then Struct else if kind == "interface_type" then Interface else TypeAlias;
    if n.kind == "type_spec" then Record(k, NodeText(ChildByField(n, "name"), src), n, scope) else []
  }

  /** The specs of a Go type declaration are recorded one by one. */
  function SpecRecords(ns: seq<Node>, src: string, scope: string): seq<SymbolInfo>
    requires forall n :: n in ns ==> n.Node?
    decreases ns
  {
    if ns == [] then [] else SpecRecord(ns[0], src, scope) + SpecRecords(ns[1..], src, scope)
  }

  function GoPlan(n: Node, src: string, scope: string): Plan
    requires n.Node?
  {
    if n.kind == "function_declaration" then Named(Function, n, src, scope)
    else if n.kind == "method_declaration" then Named(Method, n, src, scope)
    else if n.kind == "type_declaration" then Leaf(SpecRecords(NamedChildren(n), src, scope))
    else if n.kind == "import_declaration" then ImportPlan(n, src, scope, {'\n', '\r'})
    else FallThrough(n, scope)
  }

  function PythonPlan(n: Node, src: string, scope: string): Plan
    requires n.Node?
  {
    if n.kind == "function_definition" then Named(ScopedKind(scope), n, src, scope)
    else if n.kind == "class_definition" then ClassPlan(Class, n, src, scope)
    else if n.kind == "import_statement" || n.kind == "import_from_statement" then
      ImportPlan(n, src, scope, {'\n', '\r'})
    else FallThrough(n, scope)
  }

  function ScriptPlan(n: Node, src: string, scope: string): Plan
    requires n.Node?
  {
    if n.kind == "function_declaration" || n.kind == "function_signature" then Named(ScopedKind(scope), n, src, scope)
    else if n.kind == "method_definition" || n.kind == "method_signature" then Named(Method, n, src, scope)
    else if n.kind == "class_declaration" || n.kind == "class" then ClassPlan(Class, n, src, scope)
    else if n.kind == "interface_declaration" then Named(Interface, n, src, scope)
    else if n.kind == "type_alias_declaration" then Named(TypeAlias, n, src, scope)
    else if n.kind == "enum_declaration" then Named(Enum, n, src, scope)
    else if n.kind == "import_statement" then ImportPlan(n, src, scope, {'\n', '\r', ';'})
    else if n.kind == "export_statement" && ChildByField(n, "declaration").Node? then
      Plan([], [ChildByField(n, "declaration")], scope)
    else FallThrough(n, scope)
  }

  function PlanFor(n: Node, src: string, lang: Lang, scope: string): Plan
    requires n.Node?
  {
    match lang
    case Rust => RustPlan(n, src, scope)
    case Go => GoPlan(n, src, scope)
    case C => CPlan(n, src, scope)
    case Cpp => CPlan(n, src, scope)
    case Python => PythonPlan(n, src, scope)
    case TypeScript => ScriptPlan(n, src, scope)
    case JavaScript => ScriptPlan(n, src, scope)
    case Unknown => FallThrough(n, scope)
  }

  // ----- Collection -----

  ghost predicate AllBelow(vs: seq<Node>, top: Node) { forall i :: 0 <= i < |vs| ==> vs[i] < top }

  /** The nodes a visit may descend to. */
  predicate Descends(vs: seq<Node>, n: Node)
    requires n.Node?
  {
    || vs == []
    || vs == NamedChildren(n)
    || vs == NamedChildren(ChildByField(n, "body"))
    || vs == OfKinds(NamedChildren(n), TEMPLATED)
    || vs == OfKinds(NamedChildren(n), DECLARED)
    || (ChildByField(n, "declaration").Node? && vs == [ChildByField(n, "declaration")])
  }

  /** A plan records the node itself and descends, or records the specs among its children. */
  predicate Shaped(p: Plan, n: Node, src: string, scope: string)
    requires n.Node?
  {
    (OwnRecord(p.records, n) && Descends(p.visits, n)) || p == Leaf(SpecRecords(NamedChildren(n), src, scope))
  }

  lemma CShape(n: Node, src: string, scope: string)
    requires n.Node?
    ensures Shaped(CPlan(n, src, scope), n, src, scope)
  {
    hide NodeText, FindDescendant, Record, Trim, NamedChildren, ChildByField, OfKinds, SpecRecords;
  }

  lemma ScriptShape(n: Node, src: string, scope: string)
    requires n.Node?
    ensures Shaped(ScriptPlan(n, src, scope), n, src, scope)
  {
    hide NodeText, FindDescendant, Record, Trim, NamedChildren, ChildByField, OfKinds, SpecRecords;
  }

  lemma RustAndGoShape(n: Node, src: string, scope: string)
    requires n.Node?
    ensures Shaped(RustPlan(n, src, scope), n, src, scope) && Shaped(GoPlan(n, src, scope), n, src, scope)
  {
    hide NodeText, FindDescendant, Record, Trim, NamedChildren, ChildByField, OfKinds, SpecRecords;
  }

  lemma PythonShape(n: Node, src: string, scope: string)
    requires n.Node?
    ensures Shaped(PythonPlan(n, src, scope), n, src, scope) && Shaped(FallThrough(n, scope), n, src, scope)
  {
    hide NodeText, FindDescendant, Record, Trim, NamedChildren, ChildByField, OfKinds, SpecRecords;
  }

  /** In every language. */
  lemma PlanShape(n: Node, src: string, lang: Lang, scope: string)
    requires n.Node?
    ensures Shaped(PlanFor(n, src, lang, scope), n, src, scope)
  {
    hide Shaped, CPlan, ScriptPlan, RustPlan, GoPlan, PythonPlan, FallThrough;
    CShape(n, src, scope);
    ScriptShape(n, src, scope);
    RustAndGoShape(n, src, scope);
    PythonShape(n, src, scope);
  }

  /** Every visited node lies below the visiting one: it is a child, or a child of the body. */
  lemma VisitsAreBelow(n: Node, src: string, lang: Lang, scope: string)
    requires n.Node?
    ensures AllBelow(PlanFor(n, src, lang, scope).visits, n)
  {
    hide PlanFor, NamedChildren, ChildByField, OfKinds, SpecRecords;
    PlanShape(n, src, lang, scope);
    var vs := PlanFor(n, src, lang, scope).visits;
    forall i | 0 <= i < |vs| ensures vs[i] < n {
      assert vs[i] in vs;
    }
  }

  /** All symbols of a subtree, without a bound. */
  ghost function Collected(n: Node, src: string, lang: Lang, scope: string): seq<SymbolInfo>
    decreases n, 1, 0
  {
    if n.Null? then []
    else
      var p := PlanFor(n, src, lang, scope);
      VisitsAreBelow(n, src, lang, scope);
      p.records + CollectedAll(p.visits, n, src, lang, p.scope)
  }

  ghost function CollectedAll(vs: seq<Node>, top: Node, src: string, lang: Lang, scope: string): seq<SymbolInfo>
    requires AllBelow(vs, top)
    decreases top, 0, |vs|
  {
    if vs == [] then []
    else
      Collected(vs[0], src, lang, scope) + CollectedAll(vs[1..], top, src, lang, scope)
  }

  // ----- As it runs -----

  lemma CutTwice<T>(a: seq<T>, b: seq<T>, n: nat)
    ensures Cut(Cut(a, n) + b, n) == Cut(a + b, n)
  {
  }

  /** `record_symbol` for each record: nothing is stored once the vector is full. */
  method RecordAll(records: seq<SymbolInfo>, out: FixedVector<SymbolInfo>)
    requires out.Valid() && out.data.Length == MAX_SYMBOLS
    modifies out, out.data
    ensures out.Valid() && out.AsSpan() == Cut(old(out.AsSpan()) + records, MAX_SYMBOLS)
  {
    ghost var was := out.AsSpan();
    assert was + records[..0] == was;
    for i := 0 to |records|
      invariant out.Valid() && out.AsSpan() == Cut(was + records[..i], MAX_SYMBOLS)
    {
      CutTwice(was + records[..i], [records[i]], MAX_SYMBOLS);
      assert was + records[..i] + [records[i]] == was + records[..i + 1];
      if out.size < MAX_SYMBOLS {
        var _ := out.PushBack(records[i]);
      }
    }
    assert records[..|records|] == records;
  }

  /** The bounded traversal stores a prefix of the unbounded collection: what was there, then the
      subtree's symbols in order, cut at 256. */
  method CollectSymbolsRecursive(n: Node, src: string, lang: Lang, out: FixedVector<SymbolInfo>, scope: string)
    requires out.Valid() && out.data.Length == MAX_SYMBOLS
    modifies out, out.data
    ensures out.Valid() && out.AsSpan() == Cut(old(out.AsSpan()) + Collected(n, src, lang, scope), MAX_SYMBOLS)
    decreases n, 1
  {
    hide PlanFor;
    if n.Null? || out.size >= MAX_SYMBOLS {
      return;
    }
    ghost var was := out.AsSpan();
    var p := PlanFor(n, src, lang, scope);
    VisitsAreBelow(n, src, lang, scope);
    RecordAll(p.records, out);
    VisitAll(p.visits, n, src, lang, out, p.scope);
    CutTwice(was + p.records, CollectedAll(p.visits, n, src, lang, p.scope), MAX_SYMBOLS);
    assert was + p.records + CollectedAll(p.visits, n, src, lang, p.scope) == was + Collected(n, src, lang, scope);
  }

  /** What the vector holds in the end, if it holds `now` and the nodes from `i` on are still to come. */
  ghost function Pending(now: seq<SymbolInfo>, vs: seq<Node>, i: nat, top: Node, src: string, lang: Lang,
                         scope: string): seq<SymbolInfo>
    requires i <= |vs| && AllBelow(vs, top)
  {
    Cut(now + CollectedAll(vs[i..], top, src, lang, scope), MAX_SYMBOLS)
  }

  lemma VisitOne(now: seq<SymbolInfo>, vs: seq<Node>, i: nat, top: Node, src: string, lang: Lang, scope: string)
    requires i < |vs| && AllBelow(vs, top)
    ensures Pending(Cut(now + Collected(vs[i], src, lang, scope), MAX_SYMBOLS), vs, i + 1, top, src, lang, scope)
         == Pending(now, vs, i, top, src, lang, scope)
  {
    hide Collected, Cut;
    var one, rest := Collected(vs[i], src, lang, scope), CollectedAll(vs[i + 1..], top, src, lang, scope);
    assert vs[i..][0] == vs[i] && vs[i..][1..] == vs[i + 1..];
    CutTwice(now + one, rest, MAX_SYMBOLS);
    assert now + one + rest == now + (one + rest);
  }

  /** The loop over the visited nodes. */
  method VisitAll(vs: seq<Node>, top: Node, src: string, lang: Lang, out: FixedVector<SymbolInfo>, scope: string)
    requires out.Valid() && out.data.Length == MAX_SYMBOLS && AllBelow(vs, top)
    modifies out, out.data
    ensures out.Valid() && out.AsSpan() == Cut(old(out.AsSpan()) + CollectedAll(vs, top, src, lang, scope), MAX_SYMBOLS)
    decreases top, 0
  {
    ghost var goal := Pending(out.AsSpan(), vs, 0, top, src, lang, scope);
    assert vs[0..] == vs;
    for i := 0 to |vs|
      invariant out.Valid() && Pending(out.AsSpan(), vs, i, top, src, lang, scope) == goal
    {
      VisitOne(out.AsSpan(), vs, i, top, src, lang, scope);
      CollectSymbolsRecursive(vs[i], src, lang, out, scope);
    }
    assert out.AsSpan() + [] == out.AsSpan();
  }

  // ----- Shape of the collection -----

  /** Later symbols start no earlier, and any two ranges are nested or disjoint. */
  predicate Laminar(syms: seq<SymbolInfo>) {
    forall i, j :: 0 <= i < j < |syms| ==>
      && syms[i].startByte <= syms[j].startByte
      && (syms[j].endByte <= syms[i].endByte || syms[i].endByte <= syms[j].startByte)
  }

  predicate Within(syms: seq<SymbolInfo>, lo: nat, hi: nat) {
    forall s :: s in syms ==> lo <= s.startByte <= s.endByte <= hi
  }

  predicate NamesOk(syms: seq<SymbolInfo>) { forall s :: s in syms ==> 0 < |s.name| < MAX_SYMBOL_NAME_LEN }

  /** Symbols of one stretch of the source. */
  predicate Stretch(syms: seq<SymbolInfo>, lo: nat, hi: nat) {
    lo <= hi && Laminar(syms) && Within(syms, lo, hi) && NamesOk(syms)
  }

  lemma StretchesJoin(a: seq<SymbolInfo>, b: seq<SymbolInfo>, lo: nat, mid: nat, hi: nat)
    requires Stretch(a, lo, mid) && Stretch(b, mid, hi)
    ensures Stretch(a + b, lo, hi)
  {
    forall i, j | 0 <= i < j < |a + b|
      ensures (a + b)[i].startByte <= (a + b)[j].startByte
      ensures (a + b)[j].endByte <= (a + b)[i].endByte || (a + b)[i].endByte <= (a + b)[j].startByte
    {
      if i < |a| <= j {
        assert a[i] in a && b[j - |a|] in b;
      }
    }
  }

  lemma {:induction false} SiblingsFrom(cs: seq<Node>, lo: nat, lo': nat, hi: nat)
    requires Siblings(cs, lo', hi) && lo <= lo'
    ensures Siblings(cs, lo, hi) && lo' <= hi
    decreases |cs|
  {
    if cs != [] {
      SiblingsFrom(cs[1..], cs[0].end, cs[0].end, hi);
    }
  }

  lemma SiblingsCons(c: Node, rest: seq<Node>, lo: nat, hi: nat)
    requires c.Node? && TreeOk(c) && lo <= c.start && Siblings(rest, c.end, hi)
    ensures Siblings([c] + rest, lo, hi) && Siblings(rest, lo, hi)
  {
    assert ([c] + rest)[1..] == rest;
    SiblingsFrom(rest, lo, c.end, hi);
  }

  lemma {:induction false} SiblingIn(cs: seq<Node>, lo: nat, hi: nat, c: Node)
    requires Siblings(cs, lo, hi) && c in cs
    ensures c.Node? && TreeOk(c) && lo <= c.start <= c.end <= hi
    decreases |cs|
  {
    SiblingsFrom(cs[1..], cs[0].end, cs[0].end, hi);
    if c != cs[0] {
      SiblingIn(cs[1..], cs[0].end, hi, c);
    }
  }

  lemma {:induction false} NamedAreSiblings(cs: seq<Node>, lo: nat, hi: nat)
    requires Siblings(cs, lo, hi)
    ensures Siblings(NamedOf(cs), lo, hi)
    decreases |cs|
  {
    if cs != [] {
      var rest := NamedOf(cs[1..]);
      NamedAreSiblings(cs[1..], cs[0].end, hi);
      SiblingsCons(cs[0], rest, lo, hi);
      assert NamedOf(cs) == if cs[0].named then [cs[0]] + rest else rest;
    }
  }

  lemma {:induction false} KindsAreSiblings(cs: seq<Node>, kinds: set<string>, lo: nat, hi: nat)
    requires Siblings(cs, lo, hi)
    ensures Siblings(OfKinds(cs, kinds), lo, hi)
    decreases |cs|
  {
    if cs != [] {
      var rest := OfKinds(cs[1..], kinds);
      KindsAreSiblings(cs[1..], kinds, cs[0].end, hi);
      SiblingsCons(cs[0], rest, lo, hi);
      assert OfKinds(cs, kinds) == if KindOf(cs[0]) in kinds then [cs[0]] + rest else rest;
    }
  }

  lemma NamedChildrenAreSiblings(n: Node)
    requires n.Node? && TreeOk(n)
    ensures Siblings(NamedChildren(n), n.start, n.end)
  {
    NamedAreSiblings(n.children, n.start, n.end);
  }

  lemma {:induction false} SiblingsWider(cs: seq<Node>, lo: nat, hi: nat, lo': nat, hi': nat)
    requires Siblings(cs, lo, hi) && lo' <= lo && hi <= hi'
    ensures Siblings(cs, lo', hi')
    decreases |cs|
  {
    if cs != [] {
      SiblingsWider(cs[1..], cs[0].end, hi, cs[0].end, hi');
    }
  }

  /** The visited nodes stand one behind the other inside the node. */
  lemma DescentsAreSiblings(n: Node, vs: seq<Node>)
    requires n.Node? && TreeOk(n) && Descends(vs, n)
    ensures Siblings(vs, n.start, n.end)
  {
    hide NamedChildren, ChildByField, OfKinds;
    var body, decl := ChildByField(n, "body"), ChildByField(n, "declaration");
    NamedChildrenAreSiblings(n);
    if vs == OfKinds(NamedChildren(n), TEMPLATED) {
      KindsAreSiblings(NamedChildren(n), TEMPLATED, n.start, n.end);
    } else if vs == OfKinds(NamedChildren(n), DECLARED) {
      KindsAreSiblings(NamedChildren(n), DECLARED, n.start, n.end);
    } else if vs == NamedChildren(body) {
      BodyIsSiblings(n);
    } else if decl.Node? && vs == [decl] {
      SiblingIn(n.children, n.start, n.end, decl);
      OneSibling(decl, n.start, n.end);
    }
  }

  lemma OneSibling(c: Node, lo: nat, hi: nat)
    requires c.Node? && TreeOk(c) && lo <= c.start && c.end <= hi
    ensures Siblings([c], lo, hi)
  {
    assert [c][1..] == [];
  }

  lemma BodyIsSiblings(n: Node)
    requires n.Node? && TreeOk(n)
    ensures Siblings(NamedChildren(ChildByField(n, "body")), n.start, n.end)
  {
    hide ChildByField;
    var body := ChildByField(n, "body");
    if body.Node? {
      SiblingIn(n.children, n.start, n.end, body);
      NamedChildrenAreSiblings(body);
      SiblingsWider(NamedChildren(body), body.start, body.end, n.start, n.end);
    }
  }

  lemma SpecIsStretch(n: Node, src: string, scope: string, lo: nat)
    requires n.Node? && lo <= n.start <= n.end
    ensures Stretch(SpecRecord(n, src, scope), lo, n.end)
  {
  }

  lemma {:induction false} SpecsAreStretch(ns: seq<Node>, src: string, scope: string, lo: nat, hi: nat)
    requires Siblings(ns, lo, hi) && forall n :: n in ns ==> n.Node?
    ensures Stretch(SpecRecords(ns, src, scope), lo, hi)
    decreases |ns|
  {
    SiblingsFrom(ns, lo, lo, hi);
    if ns != [] {
      hide NodeText, SpecRecord, Stretch, TreeOk;
      SpecsAreStretch(ns[1..], src, scope, ns[0].end, hi);
      SiblingIn(ns, lo, hi, ns[0]);
      SpecIsStretch(ns[0], src, scope, lo);
      StretchesJoin(SpecRecord(ns[0], src, scope), SpecRecords(ns[1..], src, scope), lo, ns[0].end, hi);
    }
  }

  lemma OwnThenBelow(records: seq<SymbolInfo>, below: seq<SymbolInfo>, n: Node)
    requires n.Node? && OwnRecord(records, n) && Stretch(below, n.start, n.end)
    ensures Stretch(records + below, n.start, n.end)
  {
    var all := records + below;
    forall i, j | 0 <= i < j < |all|
      ensures all[i].startByte <= all[j].startByte
      ensures all[j].endByte <= all[i].endByte || all[i].endByte <= all[j].startByte
    {
      assert all[j] == below[j - |records|] && all[j] in below;
      if i < |records| {
        assert all[i] == records[0];
      } else {
        assert all[i] == below[i - |records|];
      }
    }
  }

  /** On any tree whose children are ordered, disjoint and nested, the symbols come in order of
      their start, any two ranges are nested or disjoint, and every name has 1 to 95 characters. */
  lemma {:induction false} CollectedIsStretch(n: Node, src: string, lang: Lang, scope: string)
    requires n.Node? && TreeOk(n)
    ensures Stretch(Collected(n, src, lang, scope), n.start, n.end)
    decreases n, 1, 0
  {
    hide PlanFor, Stretch, Descends, OwnRecord, SpecRecords;
    var p := PlanFor(n, src, lang, scope);
    PlanShape(n, src, lang, scope);
    VisitsAreBelow(n, src, lang, scope);
    var below := CollectedAll(p.visits, n, src, lang, p.scope);
    if p == Leaf(SpecRecords(NamedChildren(n), src, scope)) {
      NamedChildrenAreSiblings(n);
      SpecsAreStretch(NamedChildren(n), src, scope, n.start, n.end);
      assert p.records + below == p.records;
    } else {
      DescentsAreSiblings(n, p.visits);
      CollectedAllIsStretch(p.visits, n, src, lang, p.scope, n.start, n.end);
      OwnThenBelow(p.records, below, n);
    }
  }

  lemma {:induction false} CollectedAllIsStretch(vs: seq<Node>, top: Node, src: string, lang: Lang, scope: string,
                                                 lo: nat, hi: nat)
    requires AllBelow(vs, top) && Siblings(vs, lo, hi)
    ensures Stretch(CollectedAll(vs, top, src, lang, scope), lo, hi)
    decreases top, 0, |vs|
  {
    if vs == [] {
    } else {
      var one, rest := Collected(vs[0], src, lang, scope), CollectedAll(vs[1..], top, src, lang, scope);
      CollectedIsStretch(vs[0], src, lang, scope);
      CollectedAllIsStretch(vs[1..], top, src, lang, scope, vs[0].end, hi);
      StretchesJoin(one, rest, vs[0].start, vs[0].end, hi);
      assert Stretch(one + rest, lo, hi);
    }
  }

  // ----- Lines -----

  function Newlines(s: string): nat
    decreases |s|
  {
    if s == "" then 0 else Newlines(s[..|s| - 1]) + if s[|s| - 1] == '\n' then 1 else 0
  }

  /** Rows count the newlines in front of a position, in every node of the tree. */
  predicate RowsOk(n: Node, src: string) {
    n.Node? ==>
      && n.start <= n.end <= |src|
      && n.startRow == Newlines(src[..n.start]) && n.endRow == Newlines(src[..n.end])
      && forall c :: c in n.children ==> RowsOk(c, src)
  }

  predicate LinesOk(syms: seq<SymbolInfo>, src: string) {
    forall s :: s in syms ==>
      && s.startByte <= s.endByte <= |src|
      && s.startLine == Newlines(src[..s.startByte]) + 1 && s.endLine == Newlines(src[..s.endByte]) + 1
  }

  lemma {:induction false} SpecLines(ns: seq<Node>, src: string, scope: string)
    requires forall n :: n in ns ==> n.Node? && RowsOk(n, src)
    ensures LinesOk(SpecRecords(ns, src, scope), src)
    decreases |ns|
  {
    hide SpecRecord;
    if ns != [] {
      SpecLines(ns[1..], src, scope);
      assert ns[0] in ns && LinesOk(SpecRecord(ns[0], src, scope), src);
    }
  }

  lemma DescentsHaveRows(n: Node, vs: seq<Node>, src: string)
    requires n.Node? && RowsOk(n, src) && Descends(vs, n)
    ensures forall v :: v in vs ==> RowsOk(v, src)
  {
    hide NamedChildren, ChildByField, OfKinds;
  }

  /** Every symbol's lines are those of its byte range. */
  lemma {:induction false} CollectedLines(n: Node, src: string, lang: Lang, scope: string)
    requires RowsOk(n, src)
    ensures LinesOk(Collected(n, src, lang, scope), src)
    decreases n, 1, 0
  {
    hide PlanFor, Descends, SpecRecords;
    if n.Node? {
      var p := PlanFor(n, src, lang, scope);
      PlanShape(n, src, lang, scope);
      VisitsAreBelow(n, src, lang, scope);
      if p == Leaf(SpecRecords(NamedChildren(n), src, scope)) {
        SpecLines(NamedChildren(n), src, scope);
      } else {
        DescentsHaveRows(n, p.visits, src);
        CollectedAllLines(p.visits, n, src, lang, p.scope);
      }
    }
  }

  lemma {:induction false} CollectedAllLines(vs: seq<Node>, top: Node, src: string, lang: Lang, scope: string)
    requires AllBelow(vs, top) && forall v :: v in vs ==> RowsOk(v, src)
    ensures LinesOk(CollectedAll(vs, top, src, lang, scope), src)
    decreases top, 0, |vs|
  {
    if vs != [] {
      CollectedLines(vs[0], src, lang, scope);
      CollectedAllLines(vs[1..], top, src, lang, scope);
    }
  }

  // ----- The parser's answer and the symbols of a file -----

  /** What is assumed of the parser: a real root node over the source, nested and ordered. */
  predicate Parsed(root: Node, src: string) { root.Node? && TreeOk(root) && RowsOk(root, src) }

  ghost function Symbols(root: Node, src: string, lang: Lang): seq<SymbolInfo> {
    Cut(Collected(root, src, lang, ""), MAX_SYMBOLS)
  }

  lemma SymbolsAreSound(root: Node, src: string, lang: Lang)
    requires Parsed(root, src)
    ensures Stretch(Symbols(root, src, lang), root.start, root.end) && LinesOk(Symbols(root, src, lang), src)
  {
    hide Collected;
    CollectedIsStretch(root, src, lang, "");
    CollectedLines(root, src, lang, "");
    var all, some := Collected(root, src, lang, ""), Symbols(root, src, lang);
    assert forall i :: 0 <= i < |some| ==> some[i] == all[i] && some[i] in all;
  }

  datatype Error = AstError | InvalidArgument | NotFound | BufferOverflow
  datatype Outcome<+T> = Done(value: T) | Failed(error: Error)

  /** The parser at hand: none, one that rejects the grammar, one that gives no tree, or the tree's root. */
  datatype Parser = NoParser | RejectsGrammar | NoTree | Parses(root: Node) {
    /** What is assumed of its answer. */
    predicate Ok(src: string) { Parses? ==> Parsed(root, src) }

    /** Why there are no symbols, in the order in which the causes are tested. */
    function Trouble(lang: Lang): Option<Error> {
      if NoParser? then Some(AstError)
      else if lang == Unknown then Some(InvalidArgument)
      else if Parses? then None
      else Some(AstError)
    }
  }

  /** `extract_symbols`: fills the vector and returns its size, or fails and leaves it as it is. */
  method ExtractSymbols(parser: Parser, src: string, lang: Lang, out: FixedVector<SymbolInfo>)
    returns (r: Outcome<nat>)
    requires out.Valid() && out.data.Length == MAX_SYMBOLS
    modifies out, out.data
    ensures out.Valid()
    ensures match parser.Trouble(lang)
            case Some(e) => r == Failed(e) && out.AsSpan() == old(out.AsSpan())
            case None => out.AsSpan() == Symbols(parser.root, src, lang) && r == Done(|out.AsSpan()|)
  {
    if parser.NoParser? {
      return Failed(AstError);
    }
    if lang == Unknown {
      return Failed(InvalidArgument);
    }
    if !parser.Parses? {
      return Failed(AstError);
    }
    out.Clear();
    CollectSymbolsRecursive(parser.root, src, lang, out, "");
    assert [] + Collected(parser.root, src, lang, "") == Collected(parser.root, src, lang, "");
    return Done(out.size);
  }
}
