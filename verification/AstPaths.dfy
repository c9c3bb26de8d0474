/** What `collect_symbols_recursive` of `include/axiom/ast.hpp` collects, told by the paths from the root: which
    nodes are visited, in which class or impl they stand, and which symbol each of them gives. */
module AstPaths {
  import opened Search
  import opened Ast

  // ----- The nodes of a path -----

  predicate IsC(lang: Lang) { lang == C || lang == Cpp }

  predicate IsScript(lang: Lang) { lang == TypeScript || lang == JavaScript }

  /** Nodes that give their name to what stands in their body. */
  predicate Encloses(lang: Lang, kind: string) {
    || (IsC(lang) && kind in {"class_specifier", "struct_specifier"})
    || (lang == Python && kind == "class_definition")
    || (IsScript(lang) && kind in {"class_declaration", "class"})
    || (lang == Rust && kind == "impl_item")
  }

  /** The text that a node covers. */
  function TextOf(n: Node, src: string): string {
    if n.Node? && n.start < n.end <= |src| then src[n.start..n.end] else ""
  }

  function EnclosingName(lang: Lang, n: Node, src: string): string {
    TextOf(ChildByField(n, if lang == Rust then "type" else "name"), src)
  }

  /** The symbol kind that a node's kind stands for; a function may turn out to be a method. */
  function Table(lang: Lang, kind: string): SymbolKind {
    match lang
    case Rust =>
      (match kind
       case "function_item" => Function
       case "struct_item" => Struct
       case "enum_item" => Enum
       case "trait_item" => Interface
       case "use_declaration" => Import
       case _ => UnknownKind)
    case Go =>
      (match kind
       case "function_declaration" => Function
       case "method_declaration" => Method
       case "import_declaration" => Import
       case _ => UnknownKind)
    case Python =>
      (match kind
       case "function_definition" => Function
       case "class_definition" => Class
       case "import_statement" => Import
       case "import_from_statement" => Import
       case _ => UnknownKind)
    case Unknown => UnknownKind
    case _ => if IsC(lang) then TableC(kind) else TableScript(kind)
  }

  function TableC(kind: string): SymbolKind {
    match kind
    case "function_definition" => Function
    case "class_specifier" => Class
    case "struct_specifier" => Struct
    case "enum_specifier" => Enum
    case "type_definition" => TypeAlias
    case "preproc_include" => Import
    case _ => UnknownKind
  }

  function TableScript(kind: string): SymbolKind {
    match kind
    case "function_declaration" => Function
    case "function_signature" => Function
    case "method_definition" => Method
    case "method_signature" => Method
    case "class_declaration" => Class
    case "class" => Class
    case "interface_declaration" => Interface
    case "type_alias_declaration" => TypeAlias
    case "enum_declaration" => Enum
    case "import_statement" => Import
    case _ => UnknownKind
  }

  predicate NamedChild(n: Node, c: Node) { n.Node? && c in n.children && c.Node? && c.named }

  /** A visit of n goes on to c. A class or impl passes on to its body; what gives a symbol passes on to nothing
      else; templates and declarations of C only to some kinds; an export only to its declaration. */
  predicate Steps(lang: Lang, n: Node, c: Node) {
    && n.Node? && c.Node?
    && if Encloses(lang, n.kind) then NamedChild(ChildByField(n, "body"), c)
       else if Table(lang, n.kind) != UnknownKind || (lang == Go && n.kind == "type_declaration") then false
       else if IsC(lang) && n.kind == "template_declaration" then
         NamedChild(n, c) && c.kind in {"function_definition", "class_specifier", "struct_specifier"}
       else if IsC(lang) && n.kind == "declaration" then
         NamedChild(n, c) && c.kind in {"class_specifier", "struct_specifier", "enum_specifier"}
       else if IsScript(lang) && n.kind == "export_statement" && ChildByField(n, "declaration").Node? then
         c == ChildByField(n, "declaration")
       else NamedChild(n, c)
  }

  predicate IsPath(lang: Lang, path: seq<Node>) {
    path != [] && path[0].Node? && forall i :: 0 <= i < |path| - 1 ==> Steps(lang, path[i], path[i + 1])
  }

  /** The name of the innermost class or impl above the last node of a path, or else the given scope. */
  function ScopeOf(lang: Lang, path: seq<Node>, src: string, scope: string): string
    requires IsPath(lang, path)
    decreases |path|
  {
    if |path| == 1 then scope
    else
      assert IsPath(lang, path[1..]) by { TailIsPath(lang, path); }
      ScopeOf(lang, path[1..], src, if Encloses(lang, path[0].kind) then EnclosingName(lang, path[0], src) else scope)
  }

  lemma TailIsPath(lang: Lang, path: seq<Node>)
    requires IsPath(lang, path) && |path| > 1
    ensures IsPath(lang, path[1..])
  {
    hide Steps;
    assert Steps(lang, path[0], path[1]);
    SteppedIsNode(lang, path[0], path[1]);
    forall i | 0 <= i < |path[1..]| - 1 ensures Steps(lang, path[1..][i], path[1..][i + 1]) {
      assert Steps(lang, path[i + 1], path[i + 1 + 1]);
    }
  }

  lemma SteppedIsNode(lang: Lang, n: Node, c: Node)
    requires Steps(lang, n, c)
    ensures n.Node? && c.Node?
  {
  }

  // ----- The symbols of a node -----

  const C_NAMES := {"identifier", "field_identifier", "qualified_identifier", "destructor_name"}

  /** The node that names a C function. */
  function CName(n: Node): Node { FindDescendant(ChildByField(n, "declarator"), C_NAMES) }

  /** Functions in a class or impl are methods, except in Go; so is a C function with a qualified name. */
  function KindAt(lang: Lang, n: Node, scope: string): SymbolKind
    requires n.Node?
  {
    var k := Table(lang, n.kind);
    if k == Function && lang != Go && (scope != "" || (IsC(lang) && KindOf(CName(n)) == "qualified_identifier"))
    then Method else k
  }

  /** The name: of an import, its text without line breaks, and semicolons in Rust and scripts, at the end; of a
      C function or type definition, from its declarator; of anything else, the field. */
  function NameAt(lang: Lang, n: Node, src: string): string
    requires n.Node?
  {
    match Table(lang, n.kind)
    case Import => Trim(TextOf(n, src), if lang == Rust || IsScript(lang) then {'\n', '\r', ';'} else {'\n', '\r'})
    case Function => TextOf(if IsC(lang) then CName(n) else ChildByField(n, "name"), src)
    case TypeAlias =>
      TextOf(if IsC(lang) then FindDescendant(ChildByField(n, "declarator"), {"type_identifier", "identifier"})
             else ChildByField(n, "name"), src)
    case _ => TextOf(ChildByField(n, "name"), src)
  }

  /** A method is qualified by its scope, of which 93 characters are kept; 95 characters in all. */
  function Qualified(k: SymbolKind, name: string, scope: string): string {
    if k != Method || scope == "" then Cut(name, 95)
    else if |scope| <= 93 then Cut(scope + "::" + name, 95)
    else scope[..93] + "::"
  }

  function SymbolAt(k: SymbolKind, name: string, n: Node, scope: string): SymbolInfo
    requires n.Node?
  {
    SymbolInfo(k, Qualified(k, name, scope), n.startRow + 1, n.endRow + 1, n.start, n.end)
  }

  /** The kind of a Go type. */
  function SpecKind(c: Node): SymbolKind {
    match KindOf(ChildByField(c, "type"))
    case "struct_type" => Struct
    case "interface_type" => Interface
    case _ => TypeAlias
  }

  /** A symbol that a Go type declaration gives. */
  ghost predicate GivesSpec(n: Node, src: string, scope: string, s: SymbolInfo) {
    exists c :: NamedChild(n, c) && c.kind == "type_spec" && TextOf(ChildByField(c, "name"), src) != ""
                && s == SymbolAt(SpecKind(c), TextOf(ChildByField(c, "name"), src), c, scope)
  }

  /** A symbol that a visited node gives. */
  ghost predicate Gives(lang: Lang, n: Node, src: string, scope: string, s: SymbolInfo) {
    n.Node? &&
    if lang == Go && n.kind == "type_declaration" then GivesSpec(n, src, scope, s)
    else
      && Table(lang, n.kind) != UnknownKind && NameAt(lang, n, src) != ""
      && s == SymbolAt(KindAt(lang, n, scope), NameAt(lang, n, src), n, scope)
  }

  // ----- The plan of a node -----

  lemma TextIs(n: Node, src: string)
    ensures NodeText(n, src) == TextOf(n, src)
  {
  }

  lemma RecordTells(k: SymbolKind, name: string, n: Node, scope: string, s: SymbolInfo)
    requires n.Node?
    ensures s in Record(k, name, n, scope) <==> name != "" && s == SymbolAt(k, name, n, scope)
  {
    MethodName(name, scope);
  }

  lemma {:induction false} NamedTells(cs: seq<Node>, c: Node)
    ensures c in NamedOf(cs) <==> c in cs && c.Node? && c.named
    decreases |cs|
  {
    if cs != [] {
      NamedTells(cs[1..], c);
      assert cs == [cs[0]] + cs[1..];
    }
  }

  lemma NamedChildrenTell(n: Node, c: Node)
    ensures c in NamedChildren(n) <==> NamedChild(n, c)
  {
    if n.Node? {
      NamedTells(n.children, c);
    }
  }

  lemma {:induction false} KindsTell(ns: seq<Node>, kinds: set<string>, c: Node)
    ensures c in OfKinds(ns, kinds) <==> c in ns && KindOf(c) in kinds
    decreases |ns|
  {
    if ns != [] {
      KindsTell(ns[1..], kinds, c);
      assert ns == [ns[0]] + ns[1..];
    }
  }

  lemma {:induction false} SpecsTell(ns: seq<Node>, src: string, scope: string, s: SymbolInfo)
    requires forall n :: n in ns ==> n.Node?
    ensures s in SpecRecords(ns, src, scope) <==>
            exists c :: c in ns && c.kind == "type_spec" && TextOf(ChildByField(c, "name"), src) != ""
                        && s == SymbolAt(SpecKind(c), TextOf(ChildByField(c, "name"), src), c, scope)
    decreases |ns|
  {
    hide SymbolAt, TextOf, ChildByField, Record, NodeText;
    if ns != [] {
      var name := ChildByField(ns[0], "name");
      SpecsTell(ns[1..], src, scope, s);
      TextIs(name, src);
      RecordTells(SpecKind(ns[0]), TextOf(name, src), ns[0], scope, s);
      assert ns == [ns[0]] + ns[1..];
    }
  }

  /** A plan records what the node gives, and visits what a path can go on to. */
  ghost predicate Tells(p: Plan, lang: Lang, n: Node, src: string, scope: string)
    requires n.Node?
  {
    && (forall s :: s in p.records <==> Gives(lang, n, src, scope, s))
    && (forall c :: c in p.visits <==> Steps(lang, n, c))
    && (p.visits != [] ==> p.scope == if Encloses(lang, n.kind) then EnclosingName(lang, n, src) else scope)
  }

  /** A node that records one symbol and visits nothing. */
  lemma LeafTells(p: Plan, lang: Lang, n: Node, src: string, scope: string)
    requires n.Node? && !Encloses(lang, n.kind) && Table(lang, n.kind) != UnknownKind
    requires p == Leaf(Record(KindAt(lang, n, scope), NameAt(lang, n, src), n, scope))
    requires !(lang == Go && n.kind == "type_declaration")
    ensures Tells(p, lang, n, src, scope)
  {
    hide Record, SymbolAt, KindAt, NameAt, Table, Encloses;
    forall s ensures s in p.records <==> Gives(lang, n, src, scope, s) {
      RecordTells(KindAt(lang, n, scope), NameAt(lang, n, src), n, scope, s);
    }
  }

  /** A class: recorded, and its body visited under its name. */
  lemma ClassTells(p: Plan, lang: Lang, n: Node, src: string, scope: string)
    requires n.Node? && Encloses(lang, n.kind) && Table(lang, n.kind) != UnknownKind && lang != Go
    requires p == Plan(Record(KindAt(lang, n, scope), NameAt(lang, n, src), n, scope),
                       NamedChildren(ChildByField(n, "body")), EnclosingName(lang, n, src))
    ensures Tells(p, lang, n, src, scope)
  {
    hide Record, SymbolAt, KindAt, NameAt, Table, Encloses, NamedChildren, ChildByField, EnclosingName;
    forall s ensures s in p.records <==> Gives(lang, n, src, scope, s) {
      RecordTells(KindAt(lang, n, scope), NameAt(lang, n, src), n, scope, s);
    }
    forall c ensures c in p.visits <==> Steps(lang, n, c) {
      NamedChildrenTell(ChildByField(n, "body"), c);
    }
  }

  /** A node that gives nothing. */
  lemma PassesTells(p: Plan, lang: Lang, n: Node, src: string, scope: string)
    requires n.Node? && !Encloses(lang, n.kind) && Table(lang, n.kind) == UnknownKind
    requires !(lang == Go && n.kind == "type_declaration") && p.records == [] && p.scope == scope
    requires forall c :: c in p.visits <==> Steps(lang, n, c)
    ensures Tells(p, lang, n, src, scope)
  {
    hide Steps, Table, Encloses;
  }

  lemma FallsThrough(lang: Lang, n: Node, src: string, scope: string)
    requires n.Node? && !Encloses(lang, n.kind) && Table(lang, n.kind) == UnknownKind
    requires !(lang == Go && n.kind == "type_declaration")
    requires !(IsC(lang) && n.kind in {"template_declaration", "declaration"})
    requires !(IsScript(lang) && n.kind == "export_statement" && ChildByField(n, "declaration").Node?)
    ensures Tells(FallThrough(n, scope), lang, n, src, scope)
  {
    hide Table, Encloses, NamedChildren, ChildByField, NamedChild, Gives;
    forall c ensures c in NamedChildren(n) <==> Steps(lang, n, c) {
      NamedChildrenTell(n, c);
      NamedIsNode(n, c);
    }
    hide Steps;
    PassesTells(FallThrough(n, scope), lang, n, src, scope);
  }

  lemma NamedIsNode(n: Node, c: Node)
    ensures NamedChild(n, c) ==> c.Node?
  {
  }

  lemma PythonTells(n: Node, src: string, scope: string)
    requires n.Node?
    ensures Tells(PythonPlan(n, src, scope), Python, n, src, scope)
  {
    hide Tells, NodeText, TextOf, ChildByField, Record, FallThrough, Trim, NamedChildren, Steps, Gives, CName;
    TextIs(n, src);
    TextIs(ChildByField(n, "name"), src);
    var p := PythonPlan(n, src, scope);
    if n.kind == "class_definition" {
      ClassTells(p, Python, n, src, scope);
    } else if Table(Python, n.kind) != UnknownKind {
      LeafTells(p, Python, n, src, scope);
    } else {
      FallsThrough(Python, n, src, scope);
    }
  }

  lemma ImplTells(p: Plan, n: Node, src: string, scope: string)
    requires n.Node? && n.kind == "impl_item"
    requires p == Plan([], NamedChildren(ChildByField(n, "body")), EnclosingName(Rust, n, src))
    ensures Tells(p, Rust, n, src, scope)
  {
    hide NamedChildren, ChildByField, EnclosingName, SymbolAt, NameAt, KindAt, NamedChild;
    assert Table(Rust, n.kind) == UnknownKind && Encloses(Rust, n.kind);
    forall c ensures c in p.visits <==> Steps(Rust, n, c) {
      NamedChildrenTell(ChildByField(n, "body"), c);
      NamedIsNode(ChildByField(n, "body"), c);
    }
  }

  lemma RustTells(n: Node, src: string, scope: string)
    requires n.Node?
    ensures Tells(RustPlan(n, src, scope), Rust, n, src, scope)
  {
    hide Tells, NodeText, TextOf, ChildByField, Record, FallThrough, Trim, NamedChildren, Steps, Gives, CName;
    TextIs(n, src);
    TextIs(ChildByField(n, "name"), src);
    TextIs(ChildByField(n, "type"), src);
    var p := RustPlan(n, src, scope);
    if n.kind == "impl_item" {
      ImplTells(p, n, src, scope);
    } else if Table(Rust, n.kind) != UnknownKind {
      LeafTells(p, Rust, n, src, scope);
    } else {
      FallsThrough(Rust, n, src, scope);
    }
  }

  lemma TypesTell(p: Plan, n: Node, src: string, scope: string)
    requires n.Node? && n.kind == "type_declaration" && p == Leaf(SpecRecords(NamedChildren(n), src, scope))
    ensures Tells(p, Go, n, src, scope)
  {
    hide NamedChildren, ChildByField, SymbolAt, TextOf, SpecKind, SpecRecords, NamedChild, SpecRecord;
    assert Table(Go, n.kind) == UnknownKind && !Encloses(Go, n.kind);
    forall c ensures c in NamedChildren(n) <==> NamedChild(n, c) {
      NamedChildrenTell(n, c);
    }
    forall s ensures s in p.records <==> GivesSpec(n, src, scope, s) {
      SpecsTell(NamedChildren(n), src, scope, s);
    }
  }

  lemma GoTells(n: Node, src: string, scope: string)
    requires n.Node?
    ensures Tells(GoPlan(n, src, scope), Go, n, src, scope)
  {
    hide Tells, NodeText, TextOf, ChildByField, Record, FallThrough, Trim, NamedChildren, Steps, Gives, CName;
    hide SpecRecords;
    TextIs(n, src);
    TextIs(ChildByField(n, "name"), src);
    var p := GoPlan(n, src, scope);
    if n.kind == "type_declaration" {
      TypesTell(p, n, src, scope);
    } else if Table(Go, n.kind) != UnknownKind {
      LeafTells(p, Go, n, src, scope);
    } else {
      FallsThrough(Go, n, src, scope);
    }
  }

  lemma KindsVisited(lang: Lang, n: Node, src: string, scope: string, kinds: set<string>)
    requires n.Node? && IsC(lang)
    requires || (n.kind == "template_declaration" && kinds == TEMPLATED)
             || (n.kind == "declaration" && kinds == DECLARED)
    ensures Tells(Plan([], OfKinds(NamedChildren(n), kinds), scope), lang, n, src, scope)
  {
    hide NamedChildren, NamedChild, ChildByField, OfKinds, Gives;
    assert Table(lang, n.kind) == UnknownKind && !Encloses(lang, n.kind);
    forall c ensures c in OfKinds(NamedChildren(n), kinds) <==> Steps(lang, n, c) {
      KindsTell(NamedChildren(n), kinds, c);
      NamedChildrenTell(n, c);
      NamedIsNode(n, c);
    }
    hide Steps, Table, Encloses;
    PassesTells(Plan([], OfKinds(NamedChildren(n), kinds), scope), lang, n, src, scope);
  }

  lemma CTells(lang: Lang, n: Node, src: string, scope: string)
    requires n.Node? && IsC(lang)
    ensures Tells(CPlan(n, src, scope), lang, n, src, scope)
  {
    hide Tells, NodeText, TextOf, ChildByField, Record, FallThrough, Trim, NamedChildren, Steps, Gives;
    hide FindDescendant, OfKinds;
    TextIs(n, src);
    TextIs(ChildByField(n, "name"), src);
    TextIs(CName(n), src);
    TextIs(FindDescendant(ChildByField(n, "declarator"), {"type_identifier", "identifier"}), src);
    var p := CPlan(n, src, scope);
    if n.kind == "class_specifier" || n.kind == "struct_specifier" {
      ClassTells(p, lang, n, src, scope);
    } else if TableC(n.kind) != UnknownKind {
      LeafTells(p, lang, n, src, scope);
    } else if n.kind == "template_declaration" {
      KindsVisited(lang, n, src, scope, TEMPLATED);
    } else if n.kind == "declaration" {
      KindsVisited(lang, n, src, scope, DECLARED);
    } else {
      FallsThrough(lang, n, src, scope);
    }
  }

  lemma ExportTells(lang: Lang, n: Node, src: string, scope: string)
    requires n.Node? && IsScript(lang) && n.kind == "export_statement" && ChildByField(n, "declaration").Node?
    ensures Tells(Plan([], [ChildByField(n, "declaration")], scope), lang, n, src, scope)
  {
    hide ChildByField, Gives;
    assert Table(lang, n.kind) == UnknownKind && !Encloses(lang, n.kind);
    forall c ensures c in [ChildByField(n, "declaration")] <==> Steps(lang, n, c) {
    }
    hide Steps, Table, Encloses;
    PassesTells(Plan([], [ChildByField(n, "declaration")], scope), lang, n, src, scope);
  }

  /** What a script's plan is, by the table. */
  lemma ScriptPlanIs(n: Node, src: string, scope: string)
    requires n.Node?
    ensures var k, p, name := TableScript(n.kind), ScriptPlan(n, src, scope), NodeText(ChildByField(n, "name"), src);
            && (k == UnknownKind ==>
                  p == if n.kind == "export_statement" && ChildByField(n, "declaration").Node?
                       then Plan([], [ChildByField(n, "declaration")], scope) else FallThrough(n, scope))
            && (k == Class ==> p == Plan(Record(Class, name, n, scope), NamedChildren(ChildByField(n, "body")), name))
            && (k == Import ==> p == Leaf(Record(Import, Trim(NodeText(n, src), {'\n', '\r', ';'}), n, scope)))
            && (k !in {UnknownKind, Class, Import} ==>
                  p == Leaf(Record(if k == Function && scope != "" then Method else k, name, n, scope)))
  {
    hide NodeText, ChildByField, Record, FallThrough, Trim, NamedChildren;
  }

  /** The classes of a script enclose, and nothing else does. */
  lemma ScriptEncloses(lang: Lang, kind: string)
    requires IsScript(lang)
    ensures Table(lang, kind) == TableScript(kind) && TableScript(kind) != Struct
    ensures Encloses(lang, kind) <==> TableScript(kind) == Class
    ensures kind == "export_statement" ==> TableScript(kind) == UnknownKind
  {
  }

  lemma ScriptTells(lang: Lang, n: Node, src: string, scope: string)
    requires n.Node? && IsScript(lang)
    ensures Tells(ScriptPlan(n, src, scope), lang, n, src, scope)
  {
    hide Tells, NodeText, TextOf, ChildByField, Record, FallThrough, Trim, NamedChildren, Steps, Gives, CName;
    hide ScriptPlan, TableScript, Table, Encloses;
    ScriptPlanIs(n, src, scope);
    ScriptEncloses(lang, n.kind);
    TextIs(n, src);
    TextIs(ChildByField(n, "name"), src);
    var p, k := ScriptPlan(n, src, scope), TableScript(n.kind);
    if k == Class {
      ClassTells(p, lang, n, src, scope);
    } else if k != UnknownKind {
      LeafTells(p, lang, n, src, scope);
    } else if n.kind == "export_statement" && ChildByField(n, "declaration").Node? {
      ExportTells(lang, n, src, scope);
    } else {
      FallsThrough(lang, n, src, scope);
    }
  }

  /** In every language, a node records what the table says and passes on as paths do. */
  lemma PlanTells(n: Node, src: string, lang: Lang, scope: string)
    requires n.Node?
    ensures Tells(PlanFor(n, src, lang, scope), lang, n, src, scope)
  {
    hide Tells, CPlan, RustPlan, GoPlan, PythonPlan, ScriptPlan, FallThrough;
    match lang
    case Rust => RustTells(n, src, scope);
    case Go => GoTells(n, src, scope);
    case C => CTells(lang, n, src, scope);
    case Cpp => CTells(lang, n, src, scope);
    case Python => PythonTells(n, src, scope);
    case TypeScript => ScriptTells(lang, n, src, scope);
    case JavaScript => ScriptTells(lang, n, src, scope);
    case Unknown => FallsThrough(lang, n, src, scope);
  }

  // ----- Collected symbols -----

  /** A path whose last node gives the symbol. */
  ghost predicate Leads(path: seq<Node>, n: Node, src: string, lang: Lang, scope: string, s: SymbolInfo) {
    IsPath(lang, path) && path[0] == n && Gives(lang, path[|path| - 1], src, ScopeOf(lang, path, src, scope), s)
  }

  lemma OneNodePath(n: Node, src: string, lang: Lang, scope: string, s: SymbolInfo)
    requires n.Node?
    ensures Leads([n], n, src, lang, scope, s) <==> Gives(lang, n, src, scope, s)
  {
    hide Gives, Steps;
  }

  function Inner(lang: Lang, n: Node, src: string, scope: string): string
    requires n.Node?
  {
    if Encloses(lang, n.kind) then EnclosingName(lang, n, src) else scope
  }

  lemma LongerPath(n: Node, path: seq<Node>, src: string, lang: Lang, scope: string, s: SymbolInfo)
    requires path != [] && Steps(lang, n, path[0]) && n.Node?
    requires Leads(path, path[0], src, lang, Inner(lang, n, src, scope), s)
    ensures Leads([n] + path, n, src, lang, scope, s)
  {
    hide Gives, Steps, Encloses, EnclosingName;
    var all := [n] + path;
    assert all[1..] == path && all[|all| - 1] == path[|path| - 1];
    forall i | 0 <= i < |all| - 1 ensures Steps(lang, all[i], all[i + 1]) {
      if i > 0 {
        assert Steps(lang, path[i - 1], path[i - 1 + 1]);
      }
    }
  }

  lemma ShorterPath(path: seq<Node>, n: Node, src: string, lang: Lang, scope: string, s: SymbolInfo)
    requires n.Node? && Leads(path, n, src, lang, scope, s) && |path| > 1
    ensures Steps(lang, n, path[1]) && Leads(path[1..], path[1], src, lang, Inner(lang, n, src, scope), s)
  {
    hide Gives, Steps, Encloses, EnclosingName;
    assert Steps(lang, path[0], path[0 + 1]);
    TailIsPath(lang, path);
  }

  lemma {:induction false} CollectedAmong(vs: seq<Node>, top: Node, src: string, lang: Lang, scope: string,
                                          s: SymbolInfo)
    requires AllBelow(vs, top)
    ensures s in CollectedAll(vs, top, src, lang, scope) <==> exists v :: v in vs && s in Collected(v, src, lang, scope)
    decreases |vs|
  {
    hide *;
    CollectedHead(vs, top, src, lang, scope);
    if vs != [] {
      CollectedAmong(vs[1..], top, src, lang, scope, s);
      assert vs == [vs[0]] + vs[1..];
    }
  }

  lemma CollectedHead(vs: seq<Node>, top: Node, src: string, lang: Lang, scope: string)
    requires AllBelow(vs, top)
    ensures vs == [] ==> CollectedAll(vs, top, src, lang, scope) == []
    ensures vs != [] ==>
              && AllBelow(vs[1..], top)
              && CollectedAll(vs, top, src, lang, scope)
                 == Collected(vs[0], src, lang, scope) + CollectedAll(vs[1..], top, src, lang, scope)
  {
  }

  /** A symbol is collected if and only if a path from the node leads to one that gives it. */
  lemma {:induction false} CollectedByPath(n: Node, src: string, lang: Lang, scope: string, s: SymbolInfo)
    requires n.Node?
    ensures s in Collected(n, src, lang, scope) <==> exists path :: Leads(path, n, src, lang, scope, s)
    decreases n
  {
    hide PlanFor, Leads, Gives, Steps, Encloses, EnclosingName;
    var p := PlanFor(n, src, lang, scope);
    PlanTells(n, src, lang, scope);
    VisitsAreBelow(n, src, lang, scope);
    OneNodePath(n, src, lang, scope, s);
    CollectedAmong(p.visits, n, src, lang, p.scope, s);
    if s in Collected(n, src, lang, scope) {
      if s in p.records {
        assert Leads([n], n, src, lang, scope, s);
      } else {
        var v :| v in p.visits && s in Collected(v, src, lang, p.scope);
        VisitedIsBelow(p.visits, n, v);
        SteppedIsNode(lang, n, v);
        CollectedByPath(v, src, lang, p.scope, s);
        var path :| Leads(path, v, src, lang, p.scope, s);
        LeadsFrom(path, v, src, lang, p.scope, s);
        LongerPath(n, path, src, lang, scope, s);
      }
    }
    if path :| Leads(path, n, src, lang, scope, s) {
      LeadsFrom(path, n, src, lang, scope, s);
      if |path| == 1 {
        assert path == [n];
      } else {
        ShorterPath(path, n, src, lang, scope, s);
        var v := path[1];
        assert v in p.visits;
        VisitedIsBelow(p.visits, n, v);
        SteppedIsNode(lang, n, v);
        CollectedByPath(v, src, lang, p.scope, s);
      }
    }
  }

  lemma LeadsFrom(path: seq<Node>, n: Node, src: string, lang: Lang, scope: string, s: SymbolInfo)
    requires Leads(path, n, src, lang, scope, s)
    ensures path != [] && path[0] == n
  {
  }

  lemma VisitedIsBelow(vs: seq<Node>, top: Node, v: Node)
    requires AllBelow(vs, top) && v in vs
    ensures v < top
  {
  }

  /** The symbols of a file are symbols that paths from the root lead to, and all of these unless there are more
      than 256. */
  lemma SymbolsByPath(root: Node, src: string, lang: Lang, s: SymbolInfo)
    requires root.Node?
    ensures s in Symbols(root, src, lang) ==> exists path :: Leads(path, root, src, lang, "", s)
    ensures |Collected(root, src, lang, "")| <= MAX_SYMBOLS && (exists path :: Leads(path, root, src, lang, "", s)) ==>
              s in Symbols(root, src, lang)
  {
    hide Leads, Collected;
    CollectedByPath(root, src, lang, "", s);
  }

  /** A function in the body of a class is collected as a method, under the name of the class, two colons and
      its own name, cut to 95 characters. */
  lemma MethodOfClass(path: seq<Node>, f: Node, src: string, lang: Lang)
    requires IsPath(lang, path) && lang != Go
    requires var c := path[|path| - 1];
             && c.Node? && Encloses(lang, c.kind) && NamedChild(ChildByField(c, "body"), f)
             && 0 < |EnclosingName(lang, c, src)| <= 93
    requires Table(lang, f.kind) == Function && NameAt(lang, f, src) != ""
    ensures var name := EnclosingName(lang, path[|path| - 1], src) + "::" + NameAt(lang, f, src);
            SymbolInfo(Method, if |name| <= 95 then name else name[..95], f.startRow + 1, f.endRow + 1, f.start, f.end)
            in Collected(path[0], src, lang, "")
  {
    hide *;
    PathStarts(lang, path);
    var c := path[|path| - 1];
    StepsIntoBody(lang, c, f);
    var scope, name := EnclosingName(lang, c, src), NameAt(lang, f, src);
    GivesMethod(lang, f, src, scope);
    PathSnoc(lang, path, f);
    ScopeBehind(lang, path, f, src, "");
    PathLeads(path + [f], f, src, lang, "", SymbolAt(Method, name, f, scope));
    assert (path + [f])[0] == path[0];
    CollectedByPath(path[0], src, lang, "", SymbolAt(Method, name, f, scope));
  }

  lemma GivesMethod(lang: Lang, f: Node, src: string, scope: string)
    requires f.Node? && lang != Go && 0 < |scope| <= 93
    requires Table(lang, f.kind) == Function && NameAt(lang, f, src) != ""
    ensures var name := scope + "::" + NameAt(lang, f, src);
            SymbolAt(Method, NameAt(lang, f, src), f, scope)
            == SymbolInfo(Method, if |name| <= 95 then name else name[..95], f.startRow + 1, f.endRow + 1, f.start,
                          f.end)
    ensures Gives(lang, f, src, scope, SymbolAt(Method, NameAt(lang, f, src), f, scope))
  {
    hide NameAt, Table, CName;
  }

  lemma StepsIntoBody(lang: Lang, c: Node, f: Node)
    requires c.Node? && Encloses(lang, c.kind) && NamedChild(ChildByField(c, "body"), f)
    ensures Steps(lang, c, f) && f.Node?
  {
  }

  lemma PathStarts(lang: Lang, path: seq<Node>)
    requires IsPath(lang, path)
    ensures path != [] && path[0].Node?
  {
  }

  lemma PathSnoc(lang: Lang, path: seq<Node>, f: Node)
    requires IsPath(lang, path) && Steps(lang, path[|path| - 1], f)
    ensures IsPath(lang, path + [f]) && (path + [f])[|path + [f]| - 1] == f
  {
    hide Steps;
    var all := path + [f];
    forall i | 0 <= i < |all| - 1 ensures Steps(lang, all[i], all[i + 1]) {
      if i < |path| - 1 {
        assert Steps(lang, path[i], path[i + 1]);
      }
    }
  }

  lemma PathLeads(path: seq<Node>, f: Node, src: string, lang: Lang, scope: string, s: SymbolInfo)
    requires IsPath(lang, path) && path[|path| - 1] == f && Gives(lang, f, src, ScopeOf(lang, path, src, scope), s)
    ensures Leads(path, path[0], src, lang, scope, s)
  {
    hide Gives;
  }

  /** Directly behind a class or impl, the scope is its name. */
  lemma {:induction false} ScopeBehind(lang: Lang, path: seq<Node>, f: Node, src: string, scope: string)
    requires IsPath(lang, path) && IsPath(lang, path + [f]) && path[|path| - 1].Node?
    requires Encloses(lang, path[|path| - 1].kind)
    ensures ScopeOf(lang, path + [f], src, scope) == EnclosingName(lang, path[|path| - 1], src)
    decreases |path|
  {
    hide Steps, Encloses, EnclosingName;
    TailIsPath(lang, path + [f]);
    assert (path + [f])[1..] == path[1..] + [f];
    var next := if Encloses(lang, path[0].kind) then EnclosingName(lang, path[0], src) else scope;
    if |path| > 1 {
      TailIsPath(lang, path);
      ScopeBehind(lang, path[1..], f, src, next);
    }
  }

  // ----- Looking into nodes -----

  /** A node and all below it, from left to right, each before its children. */
  function Preorder(n: Node): seq<Node>
    decreases n, 1
  {
    if n.Null? then [] else [n] + PreorderAll(n.children)
  }

  function PreorderAll(cs: seq<Node>): seq<Node>
    decreases cs, 0
  {
    if cs == [] then [] else Preorder(cs[0]) + PreorderAll(cs[1..])
  }

  /** The first node of one of the kinds. */
  function FirstOf(ns: seq<Node>, kinds: set<string>): Node
    decreases ns
  {
    if ns == [] then Null else if KindOf(ns[0]) in kinds then ns[0] else FirstOf(ns[1..], kinds)
  }

  lemma {:induction false} FirstOfConcat(a: seq<Node>, b: seq<Node>, kinds: set<string>)
    requires forall n :: n in a ==> n.Node?
    ensures var r := FirstOf(a, kinds);
            FirstOf(a + b, kinds) == if r.Node? then r else FirstOf(b, kinds)
    decreases |a|
  {
    if a == [] {
      assert a + b == b;
    } else {
      assert (a + b)[1..] == a[1..] + b && a[0].Node?;
      FirstOfConcat(a[1..], b, kinds);
    }
  }

  lemma {:induction false} PreorderNodes(n: Node)
    ensures forall m :: m in Preorder(n) ==> m.Node?
    decreases n, 1
  {
    if n.Node? {
      PreorderAllNodes(n.children);
    }
  }

  lemma {:induction false} PreorderAllNodes(cs: seq<Node>)
    ensures forall m :: m in PreorderAll(cs) ==> m.Node?
    decreases cs, 0
  {
    if cs != [] {
      PreorderNodes(cs[0]);
      PreorderAllNodes(cs[1..]);
    }
  }

  /** The descendant that is found is the first of the kinds in preorder. */
  lemma {:induction false} DescendantIsFirst(n: Node, kinds: set<string>)
    ensures FindDescendant(n, kinds) == FirstOf(Preorder(n), kinds)
    decreases n, 1
  {
    if n.Node? {
      AmongIsFirst(n.children, kinds);
      var below := PreorderAll(n.children);
      assert ([n] + below)[1..] == below;
    }
  }

  lemma {:induction false} AmongIsFirst(cs: seq<Node>, kinds: set<string>)
    ensures FindAmong(cs, kinds) == FirstOf(PreorderAll(cs), kinds)
    decreases cs, 0
  {
    if cs != [] {
      DescendantIsFirst(cs[0], kinds);
      AmongIsFirst(cs[1..], kinds);
      PreorderNodes(cs[0]);
      FirstOfConcat(Preorder(cs[0]), PreorderAll(cs[1..]), kinds);
    }
  }

  /** Trimming drops characters of the set at the end, and all of them. */
  lemma {:induction false} TrimDrops(s: string, drop: set<char>)
    ensures var t := Trim(s, drop);
            && t <= s && (t != "" ==> t[|t| - 1] !in drop)
            && forall i :: |t| <= i < |s| ==> s[i] in drop
    decreases |s|
  {
    if s != "" && s[|s| - 1] in drop {
      TrimDrops(s[..|s| - 1], drop);
    }
  }

  /** A field is the first child that stands in it. */
  lemma {:induction false} FieldIsFirst(cs: seq<Node>, field: string)
    ensures var r := FirstInField(cs, field);
            if r.Null? then forall c :: c in cs && c.Node? ==> c.field != field
            else exists i :: 0 <= i < |cs| && cs[i] == r && r.field == field
                             && forall j :: 0 <= j < i && cs[j].Node? ==> cs[j].field != field
    decreases |cs|
  {
    if cs != [] && !(cs[0].Node? && cs[0].field == field) {
      var r := FirstInField(cs[1..], field);
      FieldIsFirst(cs[1..], field);
      if r.Node? {
        var i :| 0 <= i < |cs[1..]| && cs[1..][i] == r && r.field == field
                 && forall j :: 0 <= j < i && cs[1..][j].Node? ==> cs[1..][j].field != field;
        assert cs[i + 1] == r;
        assert forall j :: 0 < j < i + 1 ==> cs[j] == cs[1..][j - 1];
      } else {
        assert forall c :: c in cs ==> c == cs[0] || c in cs[1..];
      }
    }
  }
}
