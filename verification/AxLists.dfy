/** A printed list of accessibility nodes and the tree that `include/axiom/cdp.hpp` makes of it: the fields
    of the nodes are found, and the tree depends on nothing else. */
module AxLists {
  import opened Search
  import opened JsonScan
  import opened AxTree
  import opened AxFields
  import opened AxTreeLaws
  import opened AxNodes

  // ----- Fields of printed objects -----

  /** The first member of a name, which nothing in front of it mentions. */
  ghost predicate At(m: Members, name: string, front: Members, sp: Spacing, value: Json, rest: Members) {
    m == Chain(front, Put(sp, name, value, rest)) && sp.Ok() && Silent(FrontText(front), name)
  }

  ghost predicate Absent(m: Members, name: string) { Silent(Print(Obj(m)), name) }

  ghost predicate HasStr(m: Members, name: string, text: string) {
    || (exists front, sp, v: AXVal, rest ::
          At(m, name, front, sp, v.ToJson(), rest) && v.Ok() && text == PrintItems(v.items))
    || (Absent(m, name) && text == "")
  }

  function BoxedInt(front: Members, sp: Spacing, n: int, rest: Members): Json {
    Obj(Chain(front, Put(sp, "value", Lit(IntText(n)), rest)))
  }

  ghost predicate HasInt(m: Members, name: string, n: int) {
    || (exists front, sp, rest :: At(m, name, front, sp, Lit(IntText(n)), rest) && MembersOk(rest) && Int32(n))
    || (exists front, sp, vfront, vsp: Spacing, vrest, rest ::
          && At(m, name, front, sp, BoxedInt(vfront, vsp, n, vrest), rest)
          && vsp.Ok() && Silent(FrontText(vfront), "value") && MembersOk(vrest) && Int32(n))
    || (Absent(m, name) && n == 0)
  }

  function BoolText(b: bool): string { if b then "true" else "false" }

  ghost predicate HasBool(m: Members, name: string, b: bool) {
    || (exists front, sp, rest :: At(m, name, front, sp, Lit(BoolText(b)), rest))
    || (Absent(m, name) && !b)
  }

  lemma AbsentIsNone(s: string, name: string)
    requires Silent(s, name)
    ensures BehindColon(s, Quoted(name), 0) == None
  {
  }

  lemma AbsentFields(s: string, name: string)
    requires Silent(s, name)
    ensures FieldStr(s, Quoted(name)) == "" && FieldInt(s, Quoted(name)) == 0 && !FieldBool(s, Quoted(name))
  {
    AbsentIsNone(s, name);
    hide BehindColon, Silent, Quoted;
  }

  lemma StrFound(m: Members, name: string, text: string)
    requires HasStr(m, name, text) && Word(name)
    ensures FieldStr(Print(Obj(m)), Quoted(name)) == text
  {
    hide FieldStr, Print, Silent, Quoted, Word, PrintItems;
    if Absent(m, name) && text == "" {
      AbsentFields(Print(Obj(m)), name);
    } else {
      var front, sp, v: AXVal, rest :|
        At(m, name, front, sp, v.ToJson(), rest) && v.Ok() && text == PrintItems(v.items);
      FieldOf(front, sp, name, v, rest);
    }
  }

  lemma IntFound(m: Members, name: string, n: int)
    requires HasInt(m, name, n) && Word(name)
    ensures FieldInt(Print(Obj(m)), Quoted(name)) == n
  {
    hide FieldInt, Print, Silent, Quoted, Word, IntText, OccursAt, FieldAt, EndsAt, MembersOk, BoxedInt;
    var s := Print(Obj(m));
    OccursItself(s);
    if Absent(m, name) && n == 0 {
      AbsentFields(s, name);
    } else if front, sp, rest :| At(m, name, front, sp, Lit(IntText(n)), rest) && MembersOk(rest) && Int32(n) {
      LitPrints(IntText(n));
      Located(s, 0, front, sp, name, Lit(IntText(n)), rest, true);
      FieldIntOfPrinted(s, Quoted(name), |Lead(front, sp)|, sp.mid, sp.sep, n);
    } else {
      var front, sp, vfront, vsp: Spacing, vrest, rest :|
        && At(m, name, front, sp, BoxedInt(vfront, vsp, n, vrest), rest)
        && vsp.Ok() && Silent(FrontText(vfront), "value") && MembersOk(vrest) && Int32(n);
      IntInObject(s, name, front, sp, vfront, vsp, n, vrest, rest);
    }
  }

  lemma IntInObject(s: string, name: string, front: Members, sp: Spacing, vfront: Members, vsp: Spacing, n: int,
                    vrest: Members, rest: Members)
    requires s == Print(Obj(Chain(front, Put(sp, name, BoxedInt(vfront, vsp, n, vrest), rest))))
    requires sp.Ok() && Silent(FrontText(front), name) && Word(name)
    requires vsp.Ok() && Silent(FrontText(vfront), "value") && MembersOk(vrest) && Int32(n)
    ensures FieldInt(s, Quoted(name)) == n
  {
    hide *;
    BoxedIntIs(vfront, vsp, n, vrest);
    var value := BoxedInt(vfront, vsp, n, vrest);
    var at := |Lead(front, sp)|;
    var brace := ValueAt(Quoted(name), at, sp.mid, sp.sep);
    OccursItself(s);
    LitPrints(IntText(n));
    ValueIsWord();
    BracePrints(value);
    Located(s, 0, front, sp, name, value, rest, true);
    Located(s, brace, vfront, vsp, "value", Lit(IntText(n)), vrest, false);
    Parts(s, brace, "{", Print(value)[1..]);
    FieldIntOfObject(s, Quoted(name), at, sp.mid, sp.sep, brace + |Lead(vfront, vsp)|, vsp.mid, vsp.sep, n);
  }

  lemma BoxedIntIs(front: Members, sp: Spacing, n: int, rest: Members)
    ensures BoxedInt(front, sp, n, rest) == Obj(Chain(front, Put(sp, "value", Lit(IntText(n)), rest)))
  {
  }

  lemma LitPrints(text: string)
    ensures Print(Lit(text)) == text
  {
  }

  lemma BoolFound(m: Members, name: string, b: bool)
    requires HasBool(m, name, b) && Word(name)
    ensures FieldBool(Print(Obj(m)), Quoted(name)) == b
  {
    hide FieldBool, Print, Silent, Quoted, Word, OccursAt, FieldAt, EndsAt;
    var s := Print(Obj(m));
    OccursItself(s);
    if Absent(m, name) && !b {
      AbsentFields(s, name);
    } else {
      var text := BoolText(b);
      var front, sp, rest :| At(m, name, front, sp, Lit(text), rest);
      LitPrints(text);
      Located(s, 0, front, sp, name, Lit(text), rest, true);
      FieldBoolOfPrinted(s, Quoted(name), |Lead(front, sp)|, sp.mid, sp.sep, b);
    }
  }

  // ----- Nodes -----

  /** A node with its ignored mark. */
  datatype Shown = Shown(node: AXNode, ignored: bool)

  /** The value of a node: its own, or its role's when that is printed first as an object. */
  ghost predicate ShowsValue(m: Members, value: string) {
    || HasStr(m, "value", value)
    || (exists front, sp, role: AXVal, rest ::
          && At(m, "role", front, sp, role.ToJson(), rest) && Silent(FrontText(front), "value")
          && role.Boxed? && role.Ok() && value == PrintItems(role.items))
  }

  /** The level of a heading is at least 1, and no other node has one. */
  ghost predicate ShowsLevel(m: Members, role: string, level: nat) {
    if role != "heading" then level == 0
    else exists n :: HasInt(m, "level", n) && level == (if n == 0 then 1 else n % 0x1_0000_0000)
  }

  /** The members of a printed object are those of a node, as the lookup finds them. */
  ghost predicate Shows(m: Members, sh: Shown) {
    var n := sh.node;
    && n.handle == 0 && n.actionable == IsActionableRole(n.role)
    && HasStr(m, "role", n.role) && HasStr(m, "name", n.name) && HasStr(m, "description", n.description)
    && ShowsValue(m, n.value) && ShowsLevel(m, n.role, n.headingLevel)
    && HasInt(m, "backendDOMNodeId", n.backendDomNodeId)
    && HasBool(m, "focused", n.focused) && HasBool(m, "disabled", n.disabled) && HasBool(m, "ignored", sh.ignored)
  }

  lemma TheNames()
    ensures Word("role") && Word("name") && Word("value") && Word("description") && Word("level")
    ensures Word("backendDOMNodeId") && Word("focused") && Word("disabled") && Word("ignored")
    ensures Quoted("role") == "\"role\"" && Quoted("name") == "\"name\"" && Quoted("value") == "\"value\""
    ensures Quoted("description") == "\"description\"" && Quoted("level") == "\"level\""
    ensures Quoted("backendDOMNodeId") == "\"backendDOMNodeId\"" && Quoted("focused") == "\"focused\""
    ensures Quoted("disabled") == "\"disabled\"" && Quoted("ignored") == "\"ignored\""
  {
    hide *;
    NamesAreWords();
    ShortQuoted();
    LongQuoted();
  }

  lemma NamesAreWords()
    ensures Word("role") && Word("name") && Word("value") && Word("description") && Word("level")
    ensures Word("backendDOMNodeId") && Word("focused") && Word("disabled") && Word("ignored")
  {
  }

  lemma ShortQuoted()
    ensures Quoted("role") == "\"role\"" && Quoted("name") == "\"name\"" && Quoted("value") == "\"value\""
    ensures Quoted("level") == "\"level\"" && Quoted("focused") == "\"focused\"" && Quoted("ignored") == "\"ignored\""
  {
  }

  lemma LongQuoted()
    ensures Quoted("description") == "\"description\"" && Quoted("disabled") == "\"disabled\""
    ensures Quoted("backendDOMNodeId") == "\"backendDOMNodeId\""
  {
  }

  lemma ValueShown(m: Members, value: string)
    requires ShowsValue(m, value)
    ensures FieldStr(Print(Obj(m)), "\"value\"") == value
  {
    ValueIsWord();
    hide FieldStr, Print, Silent, HasStr, PrintItems, MakeNode;
    if HasStr(m, "value", value) {
      StrFound(m, "value", value);
    } else {
      var front, sp, role: AXVal, rest :|
        && At(m, "role", front, sp, role.ToJson(), rest) && Silent(FrontText(front), "value")
        && role.Boxed? && role.Ok() && value == PrintItems(role.items);
      RoleFirst(front, sp, role, rest);
      NodeValue(Print(Obj(m)));
    }
  }

  lemma LevelShown(m: Members, role: string, level: nat)
    requires ShowsLevel(m, role, level)
    ensures var n := FieldInt(Print(Obj(m)), "\"level\"") % 0x1_0000_0000;
            level == if role != "heading" then 0 else if n == 0 then 1 else n
  {
    TheNames();
    hide FieldInt, Print, HasInt, Quoted, Word;
    if role == "heading" {
      var n :| HasInt(m, "level", n) && level == (if n == 0 then 1 else n % 0x1_0000_0000);
      IntFound(m, "level", n);
      LevelInRange(m, n);
    }
  }

  lemma LevelInRange(m: Members, n: int)
    requires HasInt(m, "level", n)
    ensures Int32(n)
  {
  }

  /** The filter makes exactly the shown node of its printed object. */
  lemma NodeShown(m: Members, sh: Shown)
    requires Shows(m, sh)
    ensures MakeNode(Print(Obj(m))) == sh.node && FieldBool(Print(Obj(m)), "\"ignored\"") == sh.ignored
  {
    TheNames();
    var n := sh.node;
    hide FieldStr, FieldInt, FieldBool, Print, HasStr, HasInt, HasBool, ShowsValue, ShowsLevel, Quoted, Word;
    StrFound(m, "role", n.role);
    StrFound(m, "name", n.name);
    StrFound(m, "description", n.description);
    ValueShown(m, n.value);
    IntFound(m, "backendDOMNodeId", n.backendDomNodeId);
    LevelShown(m, n.role, n.headingLevel);
    BoolFound(m, "focused", n.focused);
    BoolFound(m, "disabled", n.disabled);
    BoolFound(m, "ignored", sh.ignored);
  }

  // ----- Lists of nodes -----

  /** The filter on nodes in place of texts. */
  predicate LeftOut(nodes: seq<AXNode>, sh: Shown) {
    || sh.ignored
    || IsLayoutRole(sh.node.role)
    || (sh.node.role == "StaticText"
        && (sh.node.name == "" || exists i :: 0 <= i < |nodes| && sh.node.name in {nodes[i].name, nodes[i].value}))
  }

  function StepShown(t: Tree, sh: Shown, cap: nat): Tree {
    if LeftOut(t.nodes, sh) then t
    else
      var grant := Grants(t, sh.node);
      var h := if grant then t.handle + 1 else t.handle;
      var node := if grant then sh.node.(handle := h) else sh.node;
      var map_ := if grant then t.map_[h := node.backendDomNodeId] else t.map_;
      if |t.nodes| >= MAX_AX_NODES then Tree(t.nodes, map_, h, t.text, true)
      else Tree(t.nodes + [node], map_, h, AppendAll(t.text, Pieces(node), cap), false)
  }

  function FilterShown(t: Tree, shs: seq<Shown>, cap: nat): Tree
    decreases shs
  {
    if shs == [] || t.full then t else FilterShown(StepShown(t, shs[0], cap), shs[1..], cap)
  }

  /** Every printed element shows its node. */
  ghost predicate AllShow(e: Elems, shs: seq<Shown>)
    decreases e
  {
    if e.NoElems? then shs == []
    else e.value.Obj? && shs != [] && Shows(e.value.members, shs[0]) && AllShow(e.rest, shs[1..])
  }

  lemma StepIsStepShown(t: Tree, obj: string, sh: Shown, cap: nat)
    requires MakeNode(obj) == sh.node && FieldBool(obj, "\"ignored\"") == sh.ignored
    ensures Step(t, obj, cap) == StepShown(t, sh, cap)
  {
    MakeNodeFacts(obj);
    hide MakeNode, FieldStr, FieldBool, AppendAll, Pieces, IsActionableRole, IsLayoutRole;
  }

  lemma {:induction false} FilterOfShown(t: Tree, e: Elems, shs: seq<Shown>, cap: nat)
    requires AllShow(e, shs)
    ensures FilterAll(t, Printed(e), cap) == FilterShown(t, shs, cap)
    decreases e
  {
    hide Step, StepShown, Shows, Print;
    if e.Elem? && !t.full {
      NodeShown(e.value.members, shs[0]);
      StepIsStepShown(t, Print(e.value), shs[0], cap);
      FilterOfShown(StepShown(t, shs[0], cap), e.rest, shs[1..], cap);
    }
  }

  lemma {:induction false} AllAreObjects(e: Elems, shs: seq<Shown>)
    requires AllShow(e, shs)
    ensures AllObjects(e)
    decreases e
  {
    hide Shows;
    if e.Elem? {
      AllAreObjects(e.rest, shs[1..]);
    }
  }

  /** The tree of a printed list of nodes is the tree of those nodes: the filter recovers every node, with
      its role, name, backend id and marks, from the text, whatever else the text holds. */
  lemma TreeOfPrintedNodes(front: string, mid: string, e: Elems, shs: seq<Shown>, back: string, handles: nat, cap: nat)
    requires ElemsOk(e) && AllShow(e, shs) && '[' !in mid
    requires FirstAt(front + "\"nodes\"" + mid + ['['] + (PrintElems(e) + [']'] + back), "\"nodes\"", 0, |front|)
    ensures Filtered(front + "\"nodes\"" + mid + ['['] + (PrintElems(e) + [']'] + back), handles, cap)
         == Some(FilterShown(Empty(handles), shs, cap))
  {
    hide FilterAll, FilterShown, Filtered, PrintElems, AllShow, FirstAt, ElemsOk;
    AllAreObjects(e, shs);
    TreeOfPrintedList(front, mid, e, back, handles, cap);
    FilterOfShown(Empty(handles), e, shs, cap);
  }

  // ----- The smallest printed node -----

  /** The members of {"role":{"value":"a"}}. */
  function RoleOnly(): Members {
    Put(TIGHT, "role", Obj(Put(TIGHT, "value", OneLetter('a'), NoMembers(""))), NoMembers(""))
  }

  function Braced(text: string): string { ['{'] + text + ['}'] }

  lemma BracedSilent(text: string, name: string)
    requires Silent(text, name) && Word(name)
    ensures Silent(Braced(text), name)
  {
    WhiteSilent("", name);
    hide Silent, Word;
    SilentJoin("", '{', text, name);
    SilentJoin("" + ['{'] + text, '}', "", name);
    assert "" + ['{'] + text + ['}'] + "" == Braced(text);
  }

  lemma RoleOnlyText()
    ensures Print(Obj(RoleOnly())) == Braced(Quoted("role") + [':'] + Braced(Quoted("value") + [':'] + Quoted("a")))
  {
    var none := NoMembers("");
    var inner := Put(TIGHT, "value", OneLetter('a'), none);
    assert PrintMembers(none) == "" && Quoted("a") == "\"" + ['a'] + "\"";
    OneLetterPrints('a');
    TightPut("value", OneLetter('a'), none);
    TightPut("role", Obj(inner), none);
    PrintObj(inner);
    PrintObj(RoleOnly());
    hide Print, PrintMembers, Quoted, Put;
  }

  lemma AIsWord()
    ensures Word("a") && White("")
  {
  }

  lemma RoleOnlySilent(name: string)
    requires Word(name) && name != "role" && name != "value" && name != "a"
    ensures Absent(RoleOnly(), name)
  {
    hide Silent, Print, Quoted, Word, RoleOnly, Braced;
    var q, v, l := Quoted("role"), Quoted("value"), Quoted("a");
    TheNames();
    AIsWord();
    RoleOnlyText();
    WordSilent("", "role", "", name);
    WordSilent("", "value", "", name);
    WordSilent("", "a", "", name);
    assert "" + q + "" == q && "" + v + "" == v && "" + l + "" == l;
    SilentJoin(v, ':', l, name);
    BracedSilent(v + [':'] + l, name);
    SilentJoin(q, ':', Braced(v + [':'] + l), name);
    BracedSilent(q + [':'] + Braced(v + [':'] + l), name);
  }

  lemma AbsentShows(m: Members, name: string)
    requires Absent(m, name)
    ensures HasStr(m, name, "") && HasInt(m, name, 0) && HasBool(m, name, false)
  {
  }

  lemma StrShows(m: Members, name: string, front: Members, sp: Spacing, v: AXVal, rest: Members)
    requires At(m, name, front, sp, v.ToJson(), rest) && v.Ok()
    ensures HasStr(m, name, PrintItems(v.items))
  {
  }

  lemma RoleShowsValue(m: Members, front: Members, sp: Spacing, role: AXVal, rest: Members)
    requires At(m, "role", front, sp, role.ToJson(), rest) && Silent(FrontText(front), "value")
    requires role.Boxed? && role.Ok()
    ensures ShowsValue(m, PrintItems(role.items))
  {
  }

  lemma RoleOnlyAt()
    ensures var none := NoMembers("");
            var role := Boxed(none, TIGHT, [Plain('a')], none);
            At(RoleOnly(), "role", none, TIGHT, role.ToJson(), none) && role.Ok() && Silent(FrontText(none), "value")
  {
    WhiteSilent("", "role");
    WhiteSilent("", "value");
    hide Silent;
  }

  /** {"role":{"value":"a"}} shows the node with role and value "a" and nothing else. */
  lemma RoleOnlyShows()
    ensures Shows(RoleOnly(), Shown(AXNode(0, 0, "a", "", "a", "", 0, false, false, false), false))
  {
    hide *;
    var m, none := RoleOnly(), NoMembers("");
    var role := Boxed(none, TIGHT, [Plain('a')], none);
    TheNames();
    RoleOnlyAt();
    OneLetterPrints('a');
    StrShows(m, "role", none, TIGHT, role, none);
    RoleShowsValue(m, none, TIGHT, role, none);
    RoleOnlyHasNoMore();
    TheRoleOnly(m);
  }

  lemma TheRoleOnly(m: Members)
    requires HasStr(m, "role", "a") && HasStr(m, "name", "") && HasStr(m, "description", "") && ShowsValue(m, "a")
    requires HasInt(m, "backendDOMNodeId", 0)
    requires HasBool(m, "focused", false) && HasBool(m, "disabled", false) && HasBool(m, "ignored", false)
    ensures Shows(m, Shown(AXNode(0, 0, "a", "", "a", "", 0, false, false, false), false))
  {
    hide HasStr, HasInt, HasBool, ShowsValue;
  }

  lemma RoleOnlyHasNoMore()
    ensures var m := RoleOnly();
            && HasStr(m, "name", "") && HasStr(m, "description", "") && HasInt(m, "backendDOMNodeId", 0)
            && HasBool(m, "focused", false) && HasBool(m, "disabled", false) && HasBool(m, "ignored", false)
  {
    hide *;
    TheNames();
    RoleOnlySilent("name");
    RoleOnlySilent("description");
    RoleOnlySilent("backendDOMNodeId");
    RoleOnlySilent("focused");
    RoleOnlySilent("disabled");
    RoleOnlySilent("ignored");
    AbsentShows(RoleOnly(), "name");
    AbsentShows(RoleOnly(), "description");
    AbsentShows(RoleOnly(), "backendDOMNodeId");
    AbsentShows(RoleOnly(), "focused");
    AbsentShows(RoleOnly(), "disabled");
    AbsentShows(RoleOnly(), "ignored");
  }
}
