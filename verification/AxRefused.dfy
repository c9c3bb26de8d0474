/** A text on which the accessibility tree filter of `include/axiom/cdp.hpp` leaves a handle that no listed
    node has. */
module AxRefused {
  import opened Search
  import opened JsonScan
  import opened AxTree
  import opened AxFields
  import opened AxTreeLaws
  import opened AxNodes
  import opened AxLists

  // ----- Printed objects with two members -----

  function One(name: string, value: Json): Members { Put(TIGHT, name, value, NoMembers("")) }

  function Two(name1: string, value1: Json, name2: string, value2: Json): Members {
    Put(TIGHT, name1, value1, One(name2, value2))
  }

  function Pair(name: string, text: string): string { Quoted(name) + [':'] + text }

  /** A name is a string of letters, printed without escapes. */
  function Spelt(name: string): Json { Str(Letters(name)) }

  lemma {:induction false} LettersOk(name: string)
    requires Word(name)
    ensures ItemsOk(Letters(name))
    decreases name
  {
    if name != "" {
      LettersOk(name[1..]);
    }
  }

  lemma SpeltPrints(name: string)
    ensures Print(Spelt(name)) == Quoted(name)
  {
    LettersPrint(name);
  }

  lemma TwoText(name1: string, value1: Json, name2: string, value2: Json)
    ensures Print(Obj(Two(name1, value1, name2, value2)))
         == Braced(Pair(name1, Print(value1)) + [','] + Pair(name2, Print(value2)))
  {
    var one := One(name2, value2);
    NoneText();
    TightPut(name2, value2, NoMembers(""));
    TightPut(name1, value1, one);
    PrintObj(Two(name1, value1, name2, value2));
    assert one.Member?;
    hide PrintMembers, Print, Quoted, Put;
    TwoGroups(Quoted(name1), Print(value1), Quoted(name2), Print(value2));
  }

  lemma NoneText()
    ensures PrintMembers(NoMembers("")) == ""
  {
  }

  lemma TwoGroups(a: string, b: string, c: string, d: string)
    ensures ['{'] + (a + ":" + b + "," + (c + ":" + d + "" + "")) + ['}']
         == ['{'] + ((a + [':'] + b) + [','] + (c + [':'] + d)) + ['}']
  {
  }

  lemma PairSilent(other: string, text: string, name: string)
    requires Word(name) && Word(other) && name != other && Silent(text, name)
    ensures Silent(Pair(other, text), name)
  {
    WordSilent("", other, "", name);
    assert "" + Quoted(other) + "" == Quoted(other);
    hide Silent, Word, Quoted;
    SilentJoin(Quoted(other), ':', text, name);
  }

  lemma SpeltSilent(other: string, name: string)
    requires Word(name) && Word(other) && name != other
    ensures Silent(Print(Spelt(other)), name)
  {
    hide Print, Spelt;
    SpeltPrints(other);
    WordSilent("", other, "", name);
    assert "" + Quoted(other) + "" == Quoted(other);
  }

  /** Text without quotes mentions no name. */
  lemma BareSilent(text: string, name: string)
    requires '"' !in text
    ensures Silent(text, name)
  {
    forall i: nat | OccursAt(text, Quoted(name), i) ensures false {
      OccursChar(text, Quoted(name), i, 0);
    }
  }

  /** Another name occurs in neither member. */
  lemma TwoSilent(name1: string, value1: Json, name2: string, value2: Json, name: string)
    requires Word(name) && Word(name1) && Word(name2) && name != name1 && name != name2
    requires Silent(Print(value1), name) && Silent(Print(value2), name)
    ensures Absent(Two(name1, value1, name2, value2), name)
  {
    hide Silent, Word, Print, Two, Braced, Pair;
    TwoText(name1, value1, name2, value2);
    PairSilent(name1, Print(value1), name);
    PairSilent(name2, Print(value2), name);
    SilentJoin(Pair(name1, Print(value1)), ',', Pair(name2, Print(value2)), name);
    BracedSilent(Pair(name1, Print(value1)) + [','] + Pair(name2, Print(value2)), name);
  }

  lemma FirstOfTwo(name1: string, value1: Json, name2: string, value2: Json)
    ensures At(Two(name1, value1, name2, value2), name1, NoMembers(""), TIGHT, value1, One(name2, value2))
  {
    WhiteSilent("", name1);
    hide Silent;
  }

  lemma SecondOfTwo(name1: string, value1: Json, name2: string, value2: Json)
    requires Word(name1) && Word(name2) && name1 != name2 && Silent(Print(value1), name2)
    ensures At(Two(name1, value1, name2, value2), name2, One(name1, value1), TIGHT, value2, NoMembers(""))
  {
    OneInFront(name1, value1);
    ChainOne(name1, value1, One(name2, value2));
    PairSilent(name1, Print(value1), name2);
    WhiteSilent("", name2);
    hide Silent, Print, FrontText, Pair, Chain, Letters, Word;
    SilentJoin(Pair(name1, Print(value1)), ',', "", name2);
  }

  lemma ChainOne(name: string, value: Json, tail: Members)
    ensures Chain(One(name, value), tail) == Put(TIGHT, name, value, tail)
  {
    assert Chain(NoMembers(""), tail) == tail;
  }

  lemma OneInFront(name: string, value: Json)
    ensures FrontText(One(name, value)) == Pair(name, Print(value)) + [','] + ""
  {
    OneFront(name, value);
    hide *;
    OneGroups(name, Print(value));
  }

  lemma OneFront(name: string, value: Json)
    ensures FrontText(One(name, value)) == "" + Quoted(name) + "" + [':'] + "" + Print(value) + "" + [','] + ""
  {
    LettersPrint(name);
    assert FrontText(NoMembers("")) == "";
    hide Print, Letters;
  }

  lemma OneGroups(name: string, text: string)
    ensures "" + Quoted(name) + "" + [':'] + "" + text + "" + [','] + "" == Pair(name, text) + [','] + ""
  {
    hide Quoted;
  }

  // ----- A heading and a button -----

  const HEADING: Shown := Shown(AXNode(0, 0, "heading", "h", "", "", 1, false, false, false), false)
  const BUTTON: Shown := Shown(AXNode(0, 5, "button", "", "", "", 0, true, false, false), false)

  /** The members of {"role":"heading","name":"h"}. */
  function HeadingMembers(): Members { Two("role", Spelt("heading"), "name", Spelt("h")) }

  /** The members of {"role":"button","backendDOMNodeId":5}. */
  function ButtonMembers(): Members { Two("role", Spelt("button"), "backendDOMNodeId", Lit("5")) }

  lemma HeadingIs()
    ensures HeadingMembers() == Two("role", Spelt("heading"), "name", Spelt("h"))
  {
  }

  lemma ButtonIs()
    ensures ButtonMembers() == Two("role", Spelt("button"), "backendDOMNodeId", Lit("5"))
  {
  }

  lemma FiveSilent(name: string)
    ensures Silent(Print(Lit("5")), name)
  {
    LitPrints("5");
    BareSilent("5", name);
  }

  lemma SpeltShows(m: Members, name: string, front: Members, text: string, rest: Members)
    requires At(m, name, front, TIGHT, Spelt(text), rest) && Word(text)
    ensures HasStr(m, name, text)
  {
    LettersOk(text);
    LettersPrint(text);
    hide At, PrintItems, ItemsOk, HasStr, Word, Letters;
    StrShows(m, name, front, TIGHT, Bare(Letters(text)), rest);
  }

  lemma NoMoreInHeading(name: string)
    requires Word(name) && name != "role" && name != "name" && name != "heading" && name != "h"
    ensures HasStr(HeadingMembers(), name, "") && HasInt(HeadingMembers(), name, 0)
    ensures HasBool(HeadingMembers(), name, false)
  {
    TheNames();
    TheRoles();
    HeadingIs();
    hide *;
    SpeltSilent("heading", name);
    SpeltSilent("h", name);
    TwoSilent("role", Spelt("heading"), "name", Spelt("h"), name);
    AbsentShows(HeadingMembers(), name);
  }

  lemma NoMoreInButton(name: string)
    requires Word(name) && name != "role" && name != "backendDOMNodeId" && name != "button"
    ensures HasStr(ButtonMembers(), name, "") && HasInt(ButtonMembers(), name, 0)
    ensures HasBool(ButtonMembers(), name, false)
  {
    TheNames();
    TheRoles();
    ButtonIs();
    hide *;
    SpeltSilent("button", name);
    FiveSilent(name);
    TwoSilent("role", Spelt("button"), "backendDOMNodeId", Lit("5"), name);
    AbsentShows(ButtonMembers(), name);
  }

  lemma TheRoles()
    ensures Word("heading") && Word("button") && Word("h")
  {
  }

  lemma HeadingFields()
    ensures HasStr(HeadingMembers(), "role", "heading") && HasStr(HeadingMembers(), "name", "h")
  {
    TheNames();
    TheRoles();
    HeadingIs();
    hide *;
    FirstOfTwo("role", Spelt("heading"), "name", Spelt("h"));
    SpeltShows(HeadingMembers(), "role", NoMembers(""), "heading", One("name", Spelt("h")));
    SpeltSilent("heading", "name");
    SecondOfTwo("role", Spelt("heading"), "name", Spelt("h"));
    SpeltShows(HeadingMembers(), "name", One("role", Spelt("heading")), "h", NoMembers(""));
  }

  lemma ButtonFields()
    ensures HasStr(ButtonMembers(), "role", "button") && HasInt(ButtonMembers(), "backendDOMNodeId", 5)
  {
    TheNames();
    TheRoles();
    ButtonIs();
    hide *;
    FirstOfTwo("role", Spelt("button"), "backendDOMNodeId", Lit("5"));
    SpeltShows(ButtonMembers(), "role", NoMembers(""), "button", One("backendDOMNodeId", Lit("5")));
    SpeltSilent("button", "backendDOMNodeId");
    SecondOfTwo("role", Spelt("button"), "backendDOMNodeId", Lit("5"));
    FiveShows(ButtonMembers(), "backendDOMNodeId", One("role", Spelt("button")));
  }

  lemma FiveShows(m: Members, name: string, front: Members)
    requires At(m, name, front, TIGHT, Lit("5"), NoMembers(""))
    ensures HasInt(m, name, 5)
  {
    hide At;
    assert IntText(5) == "5";
  }

  lemma HeadingShows()
    ensures Shows(HeadingMembers(), HEADING)
  {
    TheNames();
    hide HasStr, HasInt, HasBool, HeadingMembers, Word, Quoted;
    HeadingFields();
    NoMoreInHeading("value");
    NoMoreInHeading("description");
    NoMoreInHeading("level");
    NoMoreInHeading("backendDOMNodeId");
    NoMoreInHeading("focused");
    NoMoreInHeading("disabled");
    NoMoreInHeading("ignored");
  }

  lemma ButtonShows()
    ensures Shows(ButtonMembers(), BUTTON)
  {
    TheNames();
    hide HasStr, HasInt, HasBool, ButtonMembers, Word, Quoted;
    ButtonFields();
    NoMoreInButton("value");
    NoMoreInButton("name");
    NoMoreInButton("description");
    NoMoreInButton("focused");
    NoMoreInButton("disabled");
    NoMoreInButton("ignored");
  }

  lemma BothAreJson()
    ensures JsonOk(Obj(HeadingMembers())) && JsonOk(Obj(ButtonMembers()))
  {
    TheNames();
    TheRoles();
    HeadingIs();
    ButtonIs();
    hide *;
    SpeltIsJson("heading");
    SpeltIsJson("button");
    SpeltIsJson("h");
    FiveIsJson();
    TwoIsJson("role", Spelt("heading"), "name", Spelt("h"));
    TwoIsJson("role", Spelt("button"), "backendDOMNodeId", Lit("5"));
  }

  lemma SpeltIsJson(name: string)
    requires Word(name)
    ensures JsonOk(Spelt(name))
  {
    LettersOk(name);
    hide Letters, ItemsOk, Word;
  }

  lemma FiveIsJson()
    ensures JsonOk(Lit("5"))
  {
  }

  lemma TwoIsJson(name1: string, value1: Json, name2: string, value2: Json)
    requires Word(name1) && Word(name2) && JsonOk(value1) && JsonOk(value2)
    ensures JsonOk(Obj(Two(name1, value1, name2, value2)))
  {
    LettersOk(name1);
    LettersOk(name2);
    OneIsJson(name2, value2);
    hide Letters, ItemsOk, Word, One;
    assert MembersOk(Two(name1, value1, name2, value2));
  }

  lemma OneIsJson(name: string, value: Json)
    requires ItemsOk(Letters(name)) && JsonOk(value)
    ensures MembersOk(One(name, value))
  {
    hide Letters, ItemsOk;
    assert MembersOk(NoMembers(""));
  }

  // ----- A list that overflows -----

  function Headings(k: nat): seq<Shown> { if k == 0 then [] else [HEADING] + Headings(k - 1) }

  lemma {:induction false} ButtonRefused(t: Tree, k: nat, cap: nat)
    requires |t.nodes| + k == MAX_AX_NODES && !t.full && t.handle == 0 && |t.map_| >= 2
    requires forall i :: 0 <= i < |t.nodes| ==> t.nodes[i].handle == 0
    ensures var r := FilterShown(t, Headings(k) + [BUTTON], cap);
            && |r.map_| >= 2 && r.map_[1] == 5
            && forall i :: 0 <= i < |r.nodes| ==> r.nodes[i].handle == 0
    decreases k
  {
    hide AppendAll, Pieces;
    if k == 0 {
      assert Headings(0) + [BUTTON] == [BUTTON] && [BUTTON][1..] == [];
    } else {
      var rest := Headings(k - 1) + [BUTTON];
      assert Headings(k) + [BUTTON] == [HEADING] + rest && ([HEADING] + rest)[1..] == rest;
      var u := StepShown(t, HEADING, cap);
      assert u.nodes == t.nodes + [HEADING.node];
      ButtonRefused(u, k - 1, cap);
    }
  }

  /** k headings and a button. */
  function Cells(k: nat): Elems {
    if k == 0 then Elem("", Obj(ButtonMembers()), "", NoElems(""))
    else Elem("", Obj(HeadingMembers()), "", Cells(k - 1))
  }

  lemma {:induction false} CellsShow(k: nat)
    ensures AllShow(Cells(k), Headings(k) + [BUTTON])
  {
    hide Shows, HeadingMembers, ButtonMembers;
    if k == 0 {
      ButtonShows();
      assert Headings(0) + [BUTTON] == [BUTTON] && [BUTTON][1..] == [];
    } else {
      HeadingShows();
      CellsShow(k - 1);
      var rest := Headings(k - 1) + [BUTTON];
      assert Headings(k) + [BUTTON] == [HEADING] + rest && ([HEADING] + rest)[1..] == rest;
    }
  }

  lemma {:induction false} CellsOk(k: nat)
    ensures ElemsOk(Cells(k))
  {
    BothAreJson();
    hide JsonOk, HeadingMembers, ButtonMembers;
    if k > 0 {
      CellsOk(k - 1);
    }
  }

  /** {"nodes":[ and k headings, a button and ]}. */
  function ListText(k: nat): string {
    "{" + "\"nodes\"" + ":" + ['['] + (PrintElems(Cells(k)) + [']'] + "}")
  }

  lemma NodesComeFirst(rest: string)
    ensures FirstAt("{" + "\"nodes\"" + ":" + ['['] + rest, "\"nodes\"", 0, |"{"|)
  {
    var s, q := "{" + "\"nodes\"" + ":" + ['['] + rest, "\"nodes\"";
    assert s[1..1 + |q|] == q;
    assert s[0..|q|][0] == '{';
  }

  /** On the text of as many headings as the node list holds (256) and a button, the button is not listed, but
      a click on handle 1 hits it. */
  lemma ClickOnRefused(k: nat, handles: nat, cap: nat)
    requires k == MAX_AX_NODES && handles >= 2
    ensures var r := Filtered(ListText(k), handles, cap);
            && r.Some? && Target(r.value.map_, 1) == Some(5)
            && (forall i :: 0 <= i < |r.value.nodes| ==> r.value.nodes[i].handle != 1)
            && !ClicksHitListed(r.value)
  {
    hide *;
    CellsOk(k);
    CellsShow(k);
    NodesComeFirst(PrintElems(Cells(k)) + [']'] + "}");
    TreeOfPrintedNodes("{", ":", Cells(k), Headings(k) + [BUTTON], "}", handles, cap);
    EmptyTree(handles);
    ButtonRefused(Empty(handles), k, cap);
    ListTextIs(k);
    UnlistedTarget(FilterShown(Empty(handles), Headings(k) + [BUTTON], cap));
  }

  lemma ListTextIs(k: nat)
    ensures ListText(k) == "{" + "\"nodes\"" + ":" + ['['] + (PrintElems(Cells(k)) + [']'] + "}")
  {
  }

  lemma EmptyTree(handles: nat)
    ensures var t := Empty(handles);
            t.nodes == [] && !t.full && t.handle == 0 && |t.map_| == handles
  {
  }

  lemma UnlistedTarget(t: Tree)
    requires |t.map_| >= 2 && t.map_[1] == 5 && forall i :: 0 <= i < |t.nodes| ==> t.nodes[i].handle == 0
    ensures Target(t.map_, 1) == Some(5) && !ClicksHitListed(t)
  {
    assert !ResolvesToListed(t, 1);
  }
}
