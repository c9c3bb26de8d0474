/** Accessibility nodes as they are printed, and what the text search of `include/axiom/cdp.hpp` makes of
    them: which string becomes a node's value. */
module AxNodes {
  import opened Search
  import opened JsonScan
  import opened DecimalText
  import opened AxTree
  import opened AxFields

  // ----- First occurrences in joined texts -----

  function Quoted(name: string): string { ['"'] + name + ['"'] }

  predicate Letter(c: char) { 'a' <= c <= 'z' || 'A' <= c <= 'Z' }

  predicate Word(name: string) { forall i :: 0 <= i < |name| ==> Letter(name[i]) }

  /** The quoted name does not occur in a text. */
  ghost predicate Silent(text: string, name: string) { forall i: nat :: !OccursAt(text, Quoted(name), i) }

  /** A character that no quoted name contains. */
  predicate Apart(c: char) { !Letter(c) && c != '"' }

  lemma OccursChar(s: string, t: string, i: nat, k: nat)
    requires OccursAt(s, t, i) && k < |t|
    ensures s[i + k] == t[k]
  {
    assert s[i..i + |t|][k] == t[k];
  }

  lemma OccursInside(s: string, base: nat, p: string, j: nat, n: nat)
    requires OccursAt(s, p, base) && j + n <= |p|
    ensures p[j..j + n] == s[base + j..base + j + n]
  {
    var u, v := p[j..j + n], s[base + j..base + j + n];
    forall x | 0 <= x < n ensures u[x] == v[x] {
      OccursChar(s, p, base, j + x);
    }
    assert u == v;
  }

  /** A name occurs in a joined text only in one of its parts. */
  lemma SilentJoin(a: string, c: char, b: string, name: string)
    requires Silent(a, name) && Silent(b, name) && Word(name) && Apart(c)
    ensures Silent(a + [c] + b, name)
  {
    var q, s := Quoted(name), a + [c] + b;
    forall i: nat ensures !OccursAt(s, q, i) {
      if OccursAt(s, q, i) {
        if i + |q| <= |a| {
          assert s[i..i + |q|] == a[i..i + |q|];
          assert OccursAt(a, q, i);
        } else if i > |a| {
          var j: nat := i - |a| - 1;
          assert s[i..i + |q|] == b[j..j + |q|];
          assert OccursAt(b, q, j);
        } else {
          OccursChar(s, q, i, |a| - i);
        }
      }
    }
  }

  /** Behind a silent text that ends apart, a quoted name occurs first. */
  lemma FirstBehind(s: string, base: nat, p: string, name: string)
    requires OccursAt(s, p + Quoted(name), base) && Silent(p, name) && Word(name)
    requires p != "" && Apart(p[|p| - 1])
    ensures FirstAt(s, Quoted(name), base, base + |p|)
  {
    var q := Quoted(name);
    Parts(s, base, p, q);
    forall i | base <= i < base + |p| ensures !OccursAt(s, q, i) {
      if OccursAt(s, q, i) {
        if i + |q| <= base + |p| {
          OccursInside(s, base, p, i - base, |q|);
          assert OccursAt(p, q, i - base);
        } else {
          OccursChar(s, p, base, |p| - 1);
          OccursChar(s, q, i, base + |p| - 1 - i);
        }
      }
    }
  }

  lemma NameInside(ws: string, other: string, mid: string, name: string, i: nat)
    requires White(ws) && White(mid) && Word(other)
    requires OccursAt(ws + Quoted(other) + mid, Quoted(name), i)
    ensures name == other
  {
    var q, s := Quoted(name), ws + Quoted(other) + mid;
    OccursChar(s, q, i, 0);
    OccursChar(s, q, i, |q| - 1);
    QuotesOf(ws, other, mid, i);
    QuotesOf(ws, other, mid, i + |q| - 1);
    assert i == |ws| && |name| == |other|;
    forall k | 0 <= k < |name| ensures name[k] == other[k] {
      OccursChar(s, q, i, k + 1);
    }
  }

  /** White space and another name are silent about a name. */
  lemma WordSilent(ws: string, other: string, mid: string, name: string)
    requires White(ws) && White(mid) && Word(other) && other != name
    ensures Silent(ws + Quoted(other) + mid, name)
  {
    forall i: nat | OccursAt(ws + Quoted(other) + mid, Quoted(name), i) ensures false {
      NameInside(ws, other, mid, name, i);
    }
  }

  lemma QuotesOf(ws: string, other: string, mid: string, i: nat)
    requires White(ws) && White(mid) && Word(other) && i < |ws + Quoted(other) + mid|
    requires (ws + Quoted(other) + mid)[i] == '"'
    ensures i == |ws| || i == |ws| + |other| + 1
  {
  }

  lemma WhiteSilent(ws: string, name: string)
    requires White(ws)
    ensures Silent(ws, name)
  {
    forall i: nat ensures !OccursAt(ws, Quoted(name), i) {
      if OccursAt(ws, Quoted(name), i) {
        OccursChar(ws, Quoted(name), i, 0);
      }
    }
  }

  // ----- Members -----

  /** The spacing of a member: before the name, around the colon, behind the value. The lookup skips
      spaces and tabs between a colon and a value. */
  datatype Spacing = Spacing(before: string, mid: string, sep: string, after: string) {
    predicate Ok() { White(before) && White(mid) && White(after) && Blanks(sep, false) }
  }

  function Letters(name: string): seq<StrItem>
    decreases name
  {
    if name == "" then [] else [Plain(name[0])] + Letters(name[1..])
  }

  lemma {:induction false} LettersPrint(name: string)
    ensures PrintItems(Letters(name)) == name
    decreases name
  {
    if name != "" {
      LettersPrint(name[1..]);
      ItemsCons(Plain(name[0]), Letters(name[1..]));
      hide PrintItems;
      assert [name[0]] + name[1..] == name;
    }
  }

  lemma ItemsCons(i: StrItem, rest: seq<StrItem>)
    ensures PrintItems([i] + rest) == PrintItem(i) + PrintItems(rest)
  {
    assert ([i] + rest)[1..] == rest;
  }

  function Put(sp: Spacing, name: string, value: Json, rest: Members): Members {
    Member(sp.before, Letters(name), sp.mid, sp.sep, value, sp.after, rest)
  }

  /** The members of front, then those of tail. */
  function Chain(front: Members, tail: Members): Members
    decreases front
  {
    if front.NoMembers? then tail else front.(rest := Chain(front.rest, tail))
  }

  /** Members as they are printed in front of others. */
  function FrontText(front: Members): string
    decreases front
  {
    if front.NoMembers? then ""
    else front.before + PrintString(front.key) + front.mid + [':'] + front.sep + Print(front.value) + front.after
         + [','] + FrontText(front.rest)
  }

  lemma {:induction false} ChainPrints(front: Members, tail: Members)
    requires tail.Member?
    ensures PrintMembers(Chain(front, tail)) == FrontText(front) + PrintMembers(tail)
    ensures Chain(front, tail).Member?
    decreases front
  {
    if front.Member? {
      ChainPrints(front.rest, tail);
      var head :=
        front.before + PrintString(front.key) + front.mid + [':'] + front.sep + Print(front.value) + front.after;
      assert PrintMembers(Chain(front, tail)) == head + [','] + PrintMembers(Chain(front.rest, tail));
      assert FrontText(front) == head + [','] + FrontText(front.rest);
    }
  }

  lemma {:induction false} FrontEnds(front: Members)
    ensures FrontText(front) != "" ==> FrontText(front)[|FrontText(front)| - 1] == ','
    decreases front
  {
    if front.Member? {
      FrontEnds(front.rest);
    }
  }

  /** What is printed in front of a member's name: the opening brace and the members before it. */
  function Lead(front: Members, sp: Spacing): string { ['{'] + FrontText(front) + sp.before }

  lemma LeadEnds(front: Members, sp: Spacing)
    requires White(sp.before)
    ensures Apart(Lead(front, sp)[|Lead(front, sp)| - 1])
  {
    FrontEnds(front);
  }

  /** Behind members that are silent about a name, text that is silent stays so. */
  lemma LeadSilent(front: Members, x: string, name: string)
    requires Silent(FrontText(front), name) && Silent(x, name) && Word(name)
    ensures Silent(['{'] + FrontText(front) + x, name)
  {
    hide Silent, FrontText;
    FrontEnds(front);
    BraceSilent(FrontText(front), x, name);
  }

  lemma BraceSilent(f: string, x: string, name: string)
    requires Silent(f, name) && Silent(x, name) && Word(name) && (f != "" ==> f[|f| - 1] == ',')
    ensures Silent(['{'] + f + x, name)
  {
    hide Silent, Word;
    WhiteSilent("", name);
    if f == "" {
      SilentJoin("", '{', x, name);
      assert "" + ['{'] + x == ['{'] + f + x;
    } else {
      var g := f[..|f| - 1];
      PrefixSilent(f, |f| - 1, name);
      SilentJoin("", '{', g, name);
      assert "" + ['{'] + g == ['{'] + g;
      SilentJoin(['{'] + g, ',', x, name);
      assert f == g + [','];
      assert ['{'] + g + [','] + x == ['{'] + f + x;
    }
  }

  lemma SuffixSilent(s: string, n: nat, name: string)
    requires n <= |s| && Silent(s, name)
    ensures Silent(s[n..], name)
  {
    forall i: nat | OccursAt(s[n..], Quoted(name), i) ensures false {
      SuffixOccurs(s, n, Quoted(name), i);
    }
  }

  lemma SuffixOccurs(s: string, n: nat, q: string, i: nat)
    requires n <= |s| && OccursAt(s[n..], q, i)
    ensures OccursAt(s, q, n + i)
  {
    assert s[n..][i..i + |q|] == s[n + i..n + i + |q|];
  }

  lemma PrefixSilent(s: string, n: nat, name: string)
    requires n <= |s| && Silent(s, name)
    ensures Silent(s[..n], name)
  {
    forall i: nat | OccursAt(s[..n], Quoted(name), i) ensures false {
      PrefixOccurs(s, n, Quoted(name), i);
    }
  }

  lemma PrefixOccurs(s: string, n: nat, q: string, i: nat)
    requires n <= |s| && OccursAt(s[..n], q, i)
    ensures OccursAt(s, q, i)
  {
    assert s[..n][i..i + |q|] == s[i..i + |q|];
  }

  /** An object is its lead, the name, the colon and the value, and more. */
  lemma MemberPrints(front: Members, sp: Spacing, name: string, value: Json, rest: Members) returns (more: string)
    ensures Print(Obj(Chain(front, Put(sp, name, value, rest))))
         == Lead(front, sp) + (Quoted(name) + ((sp.mid + ([':'] + sp.sep)) + (Print(value) + more)))
    ensures more == sp.after + ((if rest.Member? then [','] else []) + (PrintMembers(rest) + ['}']))
  {
    var tail := Put(sp, name, value, rest);
    var comma := if rest.Member? then [','] else [];
    ChainPrints(front, tail);
    LettersPrint(name);
    more := sp.after + (comma + (PrintMembers(rest) + ['}']));
    PutPrints(sp, name, value, rest);
    PrintObj(Chain(front, tail));
    hide PrintMembers, Print, Letters, FrontText, Chain, Put, Quoted;
    Regroup(FrontText(front), sp.before, Quoted(name), sp.mid, sp.sep, Print(value), sp.after, comma,
            PrintMembers(rest));
  }

  lemma PrintObj(m: Members)
    ensures Print(Obj(m)) == ['{'] + PrintMembers(m) + ['}']
  {
  }

  lemma PutPrints(sp: Spacing, name: string, value: Json, rest: Members)
    ensures PrintMembers(Put(sp, name, value, rest))
         == sp.before + Quoted(name) + sp.mid + [':'] + sp.sep + Print(value) + sp.after
            + (if rest.Member? then [','] else []) + PrintMembers(rest)
  {
    LettersPrint(name);
  }

  lemma Regroup(f: string, a: string, q: string, m: string, w: string, v: string, z: string, c: string, r: string)
    ensures ['{'] + (f + (a + q + m + [':'] + w + v + z + c + r)) + ['}']
         == (['{'] + f + a) + (q + ((m + ([':'] + w)) + (v + (z + (c + (r + ['}']))))))
  {
  }

  // ----- Values -----

  /** A field's string, by itself or behind the name `value` in an object. */
  datatype AXVal = Bare(items: seq<StrItem>) | Boxed(front: Members, sp: Spacing, items: seq<StrItem>, rest: Members) {
    ghost predicate Ok() { ItemsOk(items) && (Boxed? ==> sp.Ok() && Silent(FrontText(front), "value")) }

    function ToJson(): Json {
      if Bare? then Str(items) else Obj(Chain(front, Put(sp, "value", Str(items), rest)))
    }
  }

  /** A member is found by its name, from the brace of its object on. */
  lemma Located(s: string, base: nat, front: Members, sp: Spacing, name: string, value: Json, rest: Members,
                newline: bool)
    requires OccursAt(s, Print(Obj(Chain(front, Put(sp, name, value, rest)))), base)
    requires sp.Ok() && Word(name) && Silent(FrontText(front), name)
    ensures OccursAt(s, Lead(front, sp), base)
    ensures FieldAt(s, Quoted(name), base, base + |Lead(front, sp)|, sp.mid, sp.sep, newline)
    ensures var v := ValueAt(Quoted(name), base + |Lead(front, sp)|, sp.mid, sp.sep);
            OccursAt(s, Print(value), v) && (MembersOk(rest) ==> EndsAt(s, v + |Print(value)|))
  {
    hide *;
    var lead, colon := Lead(front, sp), sp.mid + ([':'] + sp.sep);
    var more := MemberPrints(front, sp, name, value, rest);
    SpacingFacts(sp, newline);
    LeadFacts(front, sp, name);
    FourParts(s, base, lead, Quoted(name), colon, Print(value), more);
    FirstBehind(s, base, lead, name);
    FieldAtIs(s, Quoted(name), base, base + |lead|, sp.mid, sp.sep, newline);
    if MembersOk(rest) {
      MoreStarts(sp, rest, more);
      First(s, base + |lead| + |Quoted(name)| + |colon| + |Print(value)|, more);
      EndsAtIs(s, base + |lead| + |Quoted(name)| + |colon| + |Print(value)|);
    }
  }

  /** What follows a member's value does not begin with a digit. */
  lemma MoreStarts(sp: Spacing, rest: Members, more: string)
    requires more == sp.after + ((if rest.Member? then [','] else []) + (PrintMembers(rest) + ['}']))
    requires sp.Ok() && MembersOk(rest)
    ensures more != "" && !IsDigit(more[0])
  {
  }

  lemma EndsAtIs(s: string, end: nat)
    requires end < |s| && !IsDigit(s[end])
    ensures EndsAt(s, end)
  {
  }

  lemma SpacingFacts(sp: Spacing, newline: bool)
    requires sp.Ok()
    ensures White(sp.before) && White(sp.mid) && White(sp.sep) && ':' !in sp.mid && Blanks(sp.sep, newline)
  {
  }

  lemma FieldAtIs(s: string, field: string, from: nat, at: nat, mid: string, ws: string, newline: bool)
    requires FirstAt(s, field, from, at) && ':' !in mid && Blanks(ws, newline)
    requires OccursAt(s, mid + ([':'] + ws), at + |field|)
    ensures FieldAt(s, field, from, at, mid, ws, newline)
    ensures ValueAt(field, at, mid, ws) == at + |field| + |mid + ([':'] + ws)|
  {
  }

  lemma LeadFacts(front: Members, sp: Spacing, name: string)
    requires White(sp.before) && Silent(FrontText(front), name) && Word(name)
    ensures Lead(front, sp) != "" && Apart(Lead(front, sp)[|Lead(front, sp)| - 1]) && Silent(Lead(front, sp), name)
  {
    LeadEnds(front, sp);
    WhiteSilent(sp.before, name);
    LeadSilent(front, sp.before, name);
  }

  lemma FourParts(s: string, base: nat, a: string, b: string, c: string, d: string, e: string)
    requires OccursAt(s, a + (b + (c + (d + e))), base)
    ensures OccursAt(s, a, base) && OccursAt(s, a + b, base)
    ensures OccursAt(s, c, base + |a| + |b|) && OccursAt(s, d, base + |a| + |b| + |c|)
    ensures OccursAt(s, e, base + |a| + |b| + |c| + |d|)
  {
    hide OccursAt;
    Parts(s, base, a, b + (c + (d + e)));
    Parts(s, base + |a|, b, c + (d + e));
    Parts(s, base + |a| + |b|, c, d + e);
    Parts(s, base + |a| + |b| + |c|, d, e);
    Both(s, base, a, b);
  }

  lemma Both(s: string, at: nat, a: string, b: string)
    requires OccursAt(s, a, at) && OccursAt(s, b, at + |a|)
    ensures OccursAt(s, a + b, at)
  {
    assert s[at..at + |a + b|] == s[at..at + |a|] + s[at + |a|..at + |a| + |b|];
  }

  /** The first member of a name gives the field. */
  lemma FieldOf(front: Members, sp: Spacing, name: string, v: AXVal, rest: Members)
    requires sp.Ok() && v.Ok() && Word(name) && Silent(FrontText(front), name)
    ensures FieldStr(Print(Obj(Chain(front, Put(sp, name, v.ToJson(), rest)))), Quoted(name)) == PrintItems(v.items)
  {
    var s := Print(Obj(Chain(front, Put(sp, name, v.ToJson(), rest))));
    assert OccursAt(s, s, 0);
    hide OccursAt, FieldStr, Lead, Quoted, Silent, Print, Chain, Put, FieldAt;
    Located(s, 0, front, sp, name, v.ToJson(), rest, true);
    ValRead(s, Quoted(name), |Lead(front, sp)|, sp, v);
  }

  lemma ValRead(s: string, field: string, at: nat, sp: Spacing, v: AXVal)
    requires v.Ok() && FieldAt(s, field, 0, at, sp.mid, sp.sep, true)
    requires OccursAt(s, Print(v.ToJson()), ValueAt(field, at, sp.mid, sp.sep))
    ensures FieldStr(s, field) == PrintItems(v.items)
  {
    hide OccursAt, FieldStr, Lead, Chain, Put, Print, PrintString, ItemsOk, FieldAt, ValueAt, Quoted, Silent;
    var start := ValueAt(field, at, sp.mid, sp.sep);
    if v.Bare? {
      StrPrints(v.items);
      FieldStrOfPrinted(s, field, at, sp.mid, sp.sep, v.items);
    } else {
      ValueIsWord();
      StrPrints(v.items);
      BracePrints(v.ToJson());
      Located(s, start, v.front, v.sp, "value", Str(v.items), v.rest, false);
      Parts(s, start, "{", Print(v.ToJson())[1..]);
      FieldStrOfObject(s, field, at, sp.mid, sp.sep, start + |Lead(v.front, v.sp)|, v.sp.mid, v.sp.sep, v.items);
    }
  }

  lemma StrPrints(items: seq<StrItem>)
    ensures Print(Str(items)) == PrintString(items)
  {
  }

  lemma BracePrints(v: Json)
    requires v.Obj?
    ensures |Print(v)| > 0 && Print(v) == "{" + Print(v)[1..]
  {
    PrintObj(v.members);
  }

  lemma ValueIsWord()
    ensures Word("value") && Quoted("value") == "\"value\""
    ensures Word("role") && Quoted("role") == "\"role\""
  {
  }

  // ----- Whose value a node gets -----

  /** What is printed in front of the name `value` inside a role that is an object. */
  function InnerLead(front: Members, sp: Spacing, role: AXVal): string
    requires role.Boxed?
  {
    ['{'] + FrontText(front) + ((sp.before + Quoted("role") + sp.mid) + [':'] + (sp.sep + Lead(role.front, role.sp)))
  }

  lemma InnerLeadSilent(front: Members, sp: Spacing, role: AXVal)
    requires sp.Ok() && role.Boxed? && role.Ok() && Silent(FrontText(front), "value")
    ensures Silent(InnerLead(front, sp, role), "value")
  {
    hide Silent, FrontText, Quoted, White, Word;
    ValueIsWord();
    LeadFacts(role.front, role.sp, "value");
    WordSilent(sp.before, "role", sp.mid, "value");
    WhiteSilent(sp.sep, "value");
    var lead := Lead(role.front, role.sp);
    SuffixSilent(lead, 1, "value");
    assert lead == ['{'] + lead[1..];
    hide Lead;
    SilentJoin(sp.sep, '{', lead[1..], "value");
    assert sp.sep + ['{'] + lead[1..] == sp.sep + lead;
    var w := sp.before + Quoted("role") + sp.mid;
    SilentJoin(w, ':', sp.sep + lead, "value");
    LeadSilent(front, w + [':'] + (sp.sep + lead), "value");
  }

  /** A role that is printed first, as an object, gives the node both its role and its value. */
  lemma RoleFirst(front: Members, sp: Spacing, role: AXVal, rest: Members)
    requires sp.Ok() && role.Boxed? && role.Ok()
    requires Silent(FrontText(front), "role") && Silent(FrontText(front), "value")
    ensures var n := MakeNode(Print(Obj(Chain(front, Put(sp, "role", role.ToJson(), rest)))));
            n.role == n.value == PrintItems(role.items)
  {
    hide *;
    var s := Print(Obj(Chain(front, Put(sp, "role", role.ToJson(), rest))));
    OccursItself(s);
    ValueIsWord();
    RoleFacts(sp, role);
    BracePrints(role.ToJson());
    var at, inner := |Lead(front, sp)|, |Lead(role.front, role.sp)|;
    var brace := ValueAt(Quoted("role"), at, sp.mid, sp.sep);
    InnerFound(s, front, sp, role, rest);
    Located(s, 0, front, sp, "role", role.ToJson(), rest, true);
    Parts(s, brace, "{", Print(role.ToJson())[1..]);
    ValueIsRole(s, at, sp.mid, sp.sep, brace + inner, role.sp.mid, role.sp.sep, role.items);
  }

  /** The first `value` in the node is the one inside its role. */
  lemma InnerFound(s: string, front: Members, sp: Spacing, role: AXVal, rest: Members)
    requires s == Print(Obj(Chain(front, Put(sp, "role", role.ToJson(), rest))))
    requires sp.Ok() && role.Boxed? && role.Ok()
    requires Silent(FrontText(front), "role") && Silent(FrontText(front), "value")
    ensures var at := ValueAt(Quoted("role"), |Lead(front, sp)|, sp.mid, sp.sep) + |Lead(role.front, role.sp)|;
            && FieldAt(s, Quoted("value"), 0, at, role.sp.mid, role.sp.sep, false)
            && OccursAt(s, PrintString(role.items), ValueAt(Quoted("value"), at, role.sp.mid, role.sp.sep))
  {
    OccursItself(s);
    hide *;
    ValueIsWord();
    StrPrints(role.items);
    var at, inner := |Lead(front, sp)|, |Lead(role.front, role.sp)|;
    var brace := ValueAt(Quoted("role"), at, sp.mid, sp.sep);
    RoleFacts(sp, role);
    Located(s, 0, front, sp, "role", role.ToJson(), rest, true);
    Located(s, brace, role.front, role.sp, "value", Str(role.items), role.rest, false);
    FieldAtGives(s, Quoted("role"), 0, at, sp.mid, sp.sep, true);
    FieldAtGives(s, Quoted("value"), brace, brace + inner, role.sp.mid, role.sp.sep, false);
    InnerLeadOccurs(s, front, sp, role);
    InnerLeadSilent(front, sp, role);
    LeadFacts(role.front, role.sp, "value");
    LastOfInner(front, sp, role);
    FirstBehind(s, 0, InnerLead(front, sp, role), "value");
    FieldAtIs(s, Quoted("value"), 0, brace + inner, role.sp.mid, role.sp.sep, false);
  }

  lemma OccursItself(s: string)
    ensures OccursAt(s, s, 0)
  {
  }

  lemma RoleFacts(sp: Spacing, role: AXVal)
    requires sp.Ok() && role.Boxed? && role.Ok()
    ensures role.sp.Ok() && White(role.sp.before) && Silent(FrontText(role.front), "value") && ItemsOk(role.items)
    ensures role.ToJson() == Obj(Chain(role.front, Put(role.sp, "value", Str(role.items), role.rest)))
  {
  }

  lemma FieldAtGives(s: string, field: string, from: nat, at: nat, mid: string, ws: string, newline: bool)
    requires FieldAt(s, field, from, at, mid, ws, newline)
    ensures OccursAt(s, field, at) && OccursAt(s, mid + ([':'] + ws), at + |field|)
    ensures ':' !in mid && Blanks(ws, newline)
  {
  }

  lemma LastOfInner(front: Members, sp: Spacing, role: AXVal)
    requires role.Boxed? && Lead(role.front, role.sp) != ""
    ensures var p, lead := InnerLead(front, sp, role), Lead(role.front, role.sp);
            p != "" && p[|p| - 1] == lead[|lead| - 1]
  {
    hide Lead, FrontText, Quoted;
  }

  lemma InnerLeadOccurs(s: string, front: Members, sp: Spacing, role: AXVal)
    requires role.Boxed?
    requires var lead, lead2, q := Lead(front, sp), Lead(role.front, role.sp), Quoted("role");
             var brace := ValueAt(q, |lead|, sp.mid, sp.sep);
             && OccursAt(s, lead, 0) && OccursAt(s, q, |lead|)
             && OccursAt(s, sp.mid + ([':'] + sp.sep), |lead| + |q|)
             && OccursAt(s, lead2, brace) && OccursAt(s, Quoted("value"), brace + |lead2|)
    ensures OccursAt(s, InnerLead(front, sp, role) + Quoted("value"), 0)
    ensures |InnerLead(front, sp, role)| == ValueAt(Quoted("role"), |Lead(front, sp)|, sp.mid, sp.sep)
                                            + |Lead(role.front, role.sp)|
  {
    var lead, lead2, q, colon := Lead(front, sp), Lead(role.front, role.sp), Quoted("role"), sp.mid + ([':'] + sp.sep);
    InnerLeadIs(front, sp, role);
    hide OccursAt, Lead, Quoted, InnerLead;
    Both(s, 0, lead, q);
    Both(s, 0, lead + q, colon);
    Both(s, 0, lead + q + colon, lead2);
    Both(s, 0, lead + q + colon + lead2, Quoted("value"));
  }

  lemma InnerLeadIs(front: Members, sp: Spacing, role: AXVal)
    requires role.Boxed?
    ensures InnerLead(front, sp, role)
         == Lead(front, sp) + Quoted("role") + (sp.mid + ([':'] + sp.sep)) + Lead(role.front, role.sp)
  {
    var lead2 := Lead(role.front, role.sp);
    assert Lead(front, sp) == ['{'] + FrontText(front) + sp.before;
    hide Lead, FrontText, Quoted;
    Rearrange(FrontText(front), sp.before, Quoted("role"), sp.mid, sp.sep, lead2);
  }

  lemma Rearrange(f: string, a: string, q: string, m: string, w: string, l: string)
    ensures ['{'] + f + ((a + q + m) + [':'] + (w + l)) == ['{'] + f + a + q + (m + ([':'] + w)) + l
  {
  }

  /** A printed node with a role, as an object, and a value of its own, in either order, among other
      members that do not name them in front. */
  datatype TwoFields = TwoFields(front: Members, ownFirst: bool, roleSp: Spacing, role: AXVal, ownSp: Spacing,
                                 own: AXVal, middle: Members, back: Members)
  {
    ghost predicate Ok() {
      && roleSp.Ok() && role.Boxed? && role.Ok() && ownSp.Ok() && own.Ok()
      && Silent(FrontText(front), "value") && Silent(FrontText(front), "role")
    }

    function Text(): string {
      var first := if ownFirst then Chain(middle, Put(roleSp, "role", role.ToJson(), back))
                   else Chain(middle, Put(ownSp, "value", own.ToJson(), back));
      Print(Obj(Chain(front, if ownFirst then Put(ownSp, "value", own.ToJson(), first)
                             else Put(roleSp, "role", role.ToJson(), first))))
    }
  }

  /** The stored value is the node's own if and only if it is printed before the role, or the two are the
      same string: behind the role, the node's own value is not found. */
  lemma ValueIsOwn(n: TwoFields)
    requires n.Ok()
    ensures MakeNode(n.Text()).value == PrintItems(n.own.items) <==>
            n.ownFirst || PrintItems(n.role.items) == PrintItems(n.own.items)
  {
    ValueIsWord();
    hide Print, Chain, Put, Silent, MakeNode, PrintItems, ItemsOk;
    if n.ownFirst {
      var rest := Chain(n.middle, Put(n.roleSp, "role", n.role.ToJson(), n.back));
      FieldOf(n.front, n.ownSp, "value", n.own, rest);
      NodeValue(n.Text());
    } else {
      RoleFirst(n.front, n.roleSp, n.role, Chain(n.middle, Put(n.ownSp, "value", n.own.ToJson(), n.back)));
    }
  }

  lemma NodeValue(s: string)
    ensures MakeNode(s).value == FieldStr(s, "\"value\"") && MakeNode(s).role == FieldStr(s, "\"role\"")
  {
    hide FieldStr;
  }

  const TIGHT: Spacing := Spacing("", "", "", "")

  lemma TightPut(name: string, value: Json, rest: Members)
    ensures PrintMembers(Put(TIGHT, name, value, rest))
         == Quoted(name) + ":" + Print(value) + (if rest.Member? then "," else "") + PrintMembers(rest)
  {
    PutPrints(TIGHT, name, value, rest);
    hide PrintMembers, Print, Put, Quoted;
    assert "" + Quoted(name) + "" == Quoted(name);
  }

  /** The string of one letter. */
  function OneLetter(c: char): Json { Str([Plain(c)]) }

  lemma OneLetterPrints(c: char)
    ensures Print(OneLetter(c)) == "\"" + [c] + "\"" && PrintItems([Plain(c)]) == [c]
  {
    assert [Plain(c)][1..] == [];
    assert PrintItems([Plain(c)]) == PrintItem(Plain(c)) + PrintItems([]) == [c];
    assert PrintString([Plain(c)]) == ['"'] + [c] + ['"'];
  }

  const ROLE_THEN_VALUE: string := "{\"role\":{\"value\":\"a\"},\"value\":\"b\"}"

  /** A node whose role is "a" and whose own value is "b" gets the value "a". */
  lemma OwnValueLost()
    ensures MakeNode(ROLE_THEN_VALUE).role == "a" && MakeNode(ROLE_THEN_VALUE).value == "a"
  {
    var none := NoMembers("");
    var role := Boxed(none, TIGHT, [Plain('a')], none);
    var own := Put(TIGHT, "value", OneLetter('b'), none);
    WhiteSilent("", "role");
    WhiteSilent("", "value");
    OneLetterPrints('a');
    ValueIsWord();
    LiteralPrints(role, own);
    hide MakeNode, Print, PrintItems, Silent, Put;
    RoleFirst(none, TIGHT, role, own);
  }

  lemma LiteralPrints(role: AXVal, own: Members)
    requires role == Boxed(NoMembers(""), TIGHT, [Plain('a')], NoMembers(""))
    requires own == Put(TIGHT, "value", OneLetter('b'), NoMembers(""))
    ensures Print(Obj(Chain(NoMembers(""), Put(TIGHT, "role", role.ToJson(), own)))) == ROLE_THEN_VALUE
  {
    var none := NoMembers("");
    var inner := Put(TIGHT, "value", OneLetter('a'), none);
    assert role.ToJson() == Obj(inner) && PrintMembers(none) == "" && own.Member?;
    ValueIsWord();
    OneLetterPrints('a');
    OneLetterPrints('b');
    TightPut("value", OneLetter('a'), none);
    TightPut("value", OneLetter('b'), none);
    TightPut("role", Obj(inner), own);
    PrintObj(inner);
    PrintObj(Put(TIGHT, "role", Obj(inner), own));
    hide Print, PrintMembers, Put, Quoted;
    Spelled();
  }

  lemma SpelledValue(c: char)
    ensures "\"value\"" + ":" + ("\"" + [c] + "\"") + "" + ""
         == ['"', 'v', 'a', 'l', 'u', 'e', '"', ':', '"', c, '"']
  {
  }

  lemma SpelledRole()
    ensures ['{'] + "\"value\":\"a\"" + ['}'] == "{\"value\":\"a\"}"
    ensures "\"role\"" + ":" + "{\"value\":\"a\"}" + "," == "\"role\":{\"value\":\"a\"},"
  {
  }

  lemma SpelledNode()
    ensures ['{'] + ("\"role\":{\"value\":\"a\"}," + "\"value\":\"b\"") + ['}'] == ROLE_THEN_VALUE
  {
  }

  lemma Spelled()
    ensures ['{'] + ("\"role\"" + ":" + (['{'] + ("\"value\"" + ":" + ("\"" + ['a'] + "\"") + "" + "") + ['}']) + ","
                     + ("\"value\"" + ":" + ("\"" + ['b'] + "\"") + "" + "")) + ['}']
         == ROLE_THEN_VALUE
  {
    SpelledValue('a');
    SpelledValue('b');
    assert "\"value\":\"a\"" == ['"', 'v', 'a', 'l', 'u', 'e', '"', ':', '"', 'a', '"'];
    assert "\"value\":\"b\"" == ['"', 'v', 'a', 'l', 'u', 'e', '"', ':', '"', 'b', '"'];
    SpelledRole();
    SpelledNode();
  }
}
