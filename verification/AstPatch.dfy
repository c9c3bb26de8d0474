/** Finding, slicing and patching symbols (`include/axiom/ast.hpp`). */
module AstPatch {
  import opened FixedVectors
  import opened Search
  import opened Ast

  // ----- Names -----

  /** A scope separator at the front. */
  predicate ColonsAt(s: string, i: nat) { i + 1 < |s| && s[i] == ':' && s[i + 1] == ':' }

  /** The name matches the query once each of its separators may be queried as "::" or ".". */
  predicate Matches(name: string, query: string)
    decreases |name|
  {
    if name == "" then query == ""
    else if query == "" then false
    else if ColonsAt(name, 0) then
      if query[0] == '.' then Matches(name[2..], query[1..])
      else ColonsAt(query, 0) && Matches(name[2..], query[2..])
    else name[0] == query[0] && Matches(name[1..], query[1..])
  }

  /** Every separator written as a dot, from the left. */
  function Dotted(s: string): string
    decreases |s|
  {
    if s == "" then "" else if ColonsAt(s, 0) then "." + Dotted(s[2..]) else [s[0]] + Dotted(s[1..])
  }

  /** Which characters of the dotted form stand for separators. */
  function Marks(s: string): (m: seq<bool>)
    ensures |m| == |Dotted(s)|
    decreases |s|
  {
    if s == "" then [] else if ColonsAt(s, 0) then [true] + Marks(s[2..]) else [false] + Marks(s[1..])
  }

  /** Every separator of the query stands at a separator of the name. */
  predicate MarksAgree(query: string, name: string)
    requires |Dotted(query)| == |Dotted(name)|
  {
    forall i :: 0 <= i < |Marks(query)| ==> Marks(query)[i] ==> Marks(name)[i]
  }

  /** How many characters the first mark stands for. */
  function Width(s: string): nat { if ColonsAt(s, 0) then 2 else 1 }

  lemma DottedStep(s: string)
    requires s != ""
    ensures Dotted(s) != "" && Dotted(s)[1..] == Dotted(s[Width(s)..]) && Marks(s)[1..] == Marks(s[Width(s)..])
    ensures Dotted(s)[0] == (if ColonsAt(s, 0) then '.' else s[0]) && Marks(s)[0] == ColonsAt(s, 0)
  {
  }

  lemma MarksStep(query: string, name: string)
    requires query != "" && name != "" && |Dotted(query)| == |Dotted(name)|
    ensures |Dotted(query[Width(query)..])| == |Dotted(name[Width(name)..])|
    ensures MarksAgree(query, name) <==>
            (ColonsAt(query, 0) ==> ColonsAt(name, 0)) && MarksAgree(query[Width(query)..], name[Width(name)..])
  {
    DottedStep(query);
    DottedStep(name);
    var q, n := Marks(query), Marks(name);
    hide Dotted, Marks;
    if MarksAgree(query, name) {
      forall i | 0 <= i < |q| - 1 ensures q[1..][i] ==> n[1..][i] {
        assert q[i + 1] ==> n[i + 1];
      }
    }
    if (ColonsAt(query, 0) ==> ColonsAt(name, 0)) && MarksAgree(query[Width(query)..], name[Width(name)..]) {
      forall i | 0 <= i < |q| ensures q[i] ==> n[i] {
        if i > 0 {
          assert q[i] == q[1..][i - 1] && n[i] == n[1..][i - 1];
        }
      }
    }
  }

  /** Matching is equality up to the spelling of separators, where a dot of the name is no separator. */
  lemma {:induction false} MatchesIsDotted(name: string, query: string)
    ensures Matches(name, query) <==> Dotted(name) == Dotted(query) && MarksAgree(query, name)
    decreases |name|
  {
    if name == "" || query == "" {
    } else {
      DottedStep(name);
      DottedStep(query);
      var wn, wq := Width(name), Width(query);
      if |Dotted(query)| == |Dotted(name)| {
        MarksStep(query, name);
      }
      MatchesIsDotted(name[wn..], query[wq..]);
      assert Dotted(name) == [Dotted(name)[0]] + Dotted(name)[1..];
      assert Dotted(query) == [Dotted(query)[0]] + Dotted(query)[1..];
      MatchesStep(name, query);
    }
  }

  lemma MatchesStep(name: string, query: string)
    requires name != "" && query != ""
    ensures Matches(name, query) <==>
            && Matches(name[Width(name)..], query[Width(query)..])
            && (if ColonsAt(name, 0) then ColonsAt(query, 0) || query[0] == '.'
                else !ColonsAt(query, 0) && name[0] == query[0])
  {
  }

  /** The comparison loop of the second search. */
  method MatchesLoop(name: string, query: string) returns (b: bool)
    ensures b == Matches(name, query)
  {
    var i, j, match_ := 0, 0, true;
    while i < |name| && j < |query|
      invariant i <= |name| && j <= |query|
      invariant Matches(name, query) == (match_ && Matches(name[i..], query[j..]))
      decreases match_, |name| - i
    {
      if name[i] == ':' && i + 1 < |name| && name[i + 1] == ':' {
        if query[j] == '.' {
          i, j := i + 2, j + 1;
        } else if j + 1 < |query| && query[j] == ':' && query[j + 1] == ':' {
          i, j := i + 2, j + 2;
        } else {
          match_ := false;
          break;
        }
      } else if name[i] != query[j] {
        match_ := false;
        break;
      } else {
        i, j := i + 1, j + 1;
      }
    }
    b := match_ && i == |name| && j == |query|;
  }

  /** The query is what follows a non-empty scope in the name. */
  ghost predicate IsScopedSuffix(name: string, query: string) {
    exists scope: string :: scope != "" && name == scope + "::" + query
  }

  lemma ScopedSuffixAt(name: string, query: string)
    ensures IsScopedSuffix(name, query) <==>
            |name| > |query| + 2 && name[|name| - |query| - 2..] == "::" + query
  {
    if |name| > |query| + 2 && name[|name| - |query| - 2..] == "::" + query {
      assert name == name[..|name| - |query| - 2] + "::" + query;
    }
  }

  /** How well a name answers a query, best first: itself, up to separators, as a suffix, not at all. */
  ghost function Rank(name: string, query: string): nat {
    if name == query then 0 else if Matches(name, query) then 1 else if IsScopedSuffix(name, query) then 2 else 3
  }

  lemma {:induction false} MatchesItself(name: string)
    ensures Matches(name, name)
    decreases |name|
  {
    if name != "" {
      MatchesItself(name[if ColonsAt(name, 0) then 2 else 1..]);
    }
  }

  /** The colons at the end of a scope. */
  function TrailingColons(s: string): (n: nat)
    ensures n <= |s|
    decreases |s|
  {
    if s == "" || s[|s| - 1] != ':' then 0 else 1 + TrailingColons(s[..|s| - 1])
  }

  predicate AllColons(s: string) { forall i :: 0 <= i < |s| ==> s[i] == ':' }

  lemma {:induction false} TrailingConcat(a: string, b: string)
    ensures TrailingColons(a + b) == if AllColons(b) then |b| + TrailingColons(a) else TrailingColons(b)
    decreases |b|
  {
    if b == "" {
      assert a + b == a;
    } else {
      var c := b[..|b| - 1];
      assert (a + b)[..|a + b| - 1] == a + c;
      TrailingConcat(a, c);
      assert AllColons(b) <==> AllColons(c) && b[|b| - 1] == ':';
    }
  }

  /** A scope with an odd number of colons at its end lends one of them to the separator. */
  predicate Straddles(scope: string) { TrailingColons(scope) % 2 == 1 }

  lemma StraddlesStep(scope: string)
    requires scope != ""
    ensures scope == ":" ==> Straddles(scope)
    ensures scope != ":" ==> (Straddles(scope) <==> Straddles(scope[Width(scope)..]))
  {
    var a, b := scope[..Width(scope)], scope[Width(scope)..];
    assert scope == a + b;
    TrailingConcat(a, b);
    if ColonsAt(scope, 0) {
      assert a == "::" && a[..1] == ":" && a[..1][..0] == "";
      assert TrailingColons(a) == 2;
      AllColonsTrail(b);
    } else if scope != ":" {
      assert b != "" ==> (scope[0] == ':' ==> b[0] != ':');
      AllColonsTrail(b);
      assert TrailingColons(a) == if scope[0] == ':' then 1 else 0;
    } else {
      assert a == ":" && a[..0] == "" && b == "";
    }
  }

  lemma {:induction false} AllColonsTrail(s: string)
    ensures AllColons(s) ==> TrailingColons(s) == |s|
    decreases |s|
  {
    if s != "" {
      AllColonsTrail(s[..|s| - 1]);
    }
  }

  /** The separator behind a scope may be queried as a dot exactly if the scope does not straddle it. */
  lemma {:induction false} DotMatches(scope: string, name: string)
    ensures Matches(scope + "::" + name, scope + "." + name) <==> !Straddles(scope)
    decreases |scope|
  {
    var a, b := scope + "::" + name, scope + "." + name;
    if scope == "" {
      assert a[2..] == name && b[1..] == name;
      MatchesItself(name);
    } else {
      StraddlesStep(scope);
      if scope == ":" {
        assert ColonsAt(a, 0) && b[0] == ':' && b[1] == '.';
      } else {
        var k := Width(scope);
        assert ColonsAt(a, 0) == ColonsAt(scope, 0) == ColonsAt(b, 0);
        assert a[k..] == scope[k..] + "::" + name && b[k..] == scope[k..] + "." + name;
        DotMatches(scope[k..], name);
      }
    }
  }

  /** A longer query matches no name. */
  lemma {:induction false} MatchesNoLonger(name: string, query: string)
    requires Matches(name, query)
    ensures |query| <= |name|
    decreases |name|
  {
    if name != "" {
      if ColonsAt(name, 0) {
        MatchesNoLonger(name[2..], query[if query[0] == '.' then 1 else 2..]);
      } else {
        MatchesNoLonger(name[1..], query[1..]);
      }
    }
  }

  /** A recorded method answers to its qualified name exactly when that has at most 95 characters; it then
      answers to its bare name, and to the spelling with a dot exactly when its scope does not end in an
      odd number of colons. */
  lemma MethodAnswers(name: string, scope: string)
    requires name != "" && scope != ""
    ensures var recorded := RecordedName(Method, name, scope);
            if |scope| + 2 + |name| < MAX_SYMBOL_NAME_LEN
            then Rank(recorded, scope + "::" + name) == 0 && Rank(recorded, name) <= 2
                 && (Rank(recorded, scope + "." + name) == 1 <==> !Straddles(scope))
            else Rank(recorded, scope + "::" + name) == 3
  {
    MethodName(name, scope);
    DotMatches(scope, name);
    var recorded, full, dotted := RecordedName(Method, name, scope), scope + "::" + name, scope + "." + name;
    assert |full| != |dotted|;
    if |full| >= MAX_SYMBOL_NAME_LEN {
      if Matches(recorded, full) {
        MatchesNoLonger(recorded, full);
      }
    }
  }

  /** The best answer to a query, and the first of the best. */
  ghost predicate IsAnswer(names: seq<SymbolInfo>, query: string, r: Option<nat>) {
    match r
    case None => forall i :: 0 <= i < |names| ==> Rank(names[i].name, query) == 3
    case Some(at) =>
      && at < |names|
      && Rank(names[at].name, query) < 3
      && (forall i :: 0 <= i < |names| ==> Rank(names[at].name, query) <= Rank(names[i].name, query))
      && (forall i :: 0 <= i < at ==> Rank(names[at].name, query) < Rank(names[i].name, query))
  }

  /** The answer, pass by pass: the first name that is the query; if there is none, the first that is the query up
      to separators; if there is none either, the first that the query is a scoped suffix of. */
  lemma AnswerByPass(names: seq<SymbolInfo>, query: string, r: Option<nat>)
    requires IsAnswer(names, query, r)
    ensures r.None? ==> forall n :: n in names ==>
              n.name != query && !Matches(n.name, query) && !IsScopedSuffix(n.name, query)
    ensures r.Some? ==>
              var at, before := names[r.value].name, names[..r.value];
              || (at == query && forall n :: n in before ==> n.name != query)
              || ((forall n :: n in names ==> n.name != query)
                  && Matches(at, query) && forall n :: n in before ==> !Matches(n.name, query))
              || ((forall n :: n in names ==> n.name != query && !Matches(n.name, query))
                  && IsScopedSuffix(at, query) && forall n :: n in before ==> !IsScopedSuffix(n.name, query))
  {
    hide Matches, IsScopedSuffix;
    if r.Some? {
      var best := Rank(names[r.value].name, query);
      forall n | n in names ensures best <= Rank(n.name, query) {
        var i :| 0 <= i < |names| && names[i] == n;
      }
      forall n | n in names[..r.value] ensures best < Rank(n.name, query) {
        var i :| 0 <= i < r.value && names[..r.value][i] == n;
      }
    }
  }

  lemma AnswerIsUnique(names: seq<SymbolInfo>, query: string, a: Option<nat>, b: Option<nat>)
    requires IsAnswer(names, query, a) && IsAnswer(names, query, b)
    ensures a == b
  {
    hide Rank;
  }

  /** The answer, as a function: a later name wins only if it is strictly better. */
  ghost function Answer(names: seq<SymbolInfo>, query: string): (r: Option<nat>)
    ensures IsAnswer(names, query, r)
    decreases |names|
  {
    if names == [] then None
    else
      var last := |names| - 1;
      var r := Answer(names[..last], query);
      var rank := if r.None? then 3 else Rank(names[r.value].name, query);
      LaterAnswer(names, query, r);
      if Rank(names[last].name, query) < rank then Some(last) else r
  }

  lemma LaterAnswer(names: seq<SymbolInfo>, query: string, r: Option<nat>)
    requires names != [] && IsAnswer(names[..|names| - 1], query, r)
    ensures var last := |names| - 1;
            var rank := if r.None? then 3 else Rank(names[r.value].name, query);
            IsAnswer(names, query, if Rank(names[last].name, query) < rank then Some(last) else r)
  {
    var before := names[..|names| - 1];
    assert Rank(names[|names| - 1].name, query) <= 3;
    hide Rank;
    assert forall k :: 0 <= k < |before| ==> before[k] == names[k];
  }

  /** `find_symbol`: three passes over the vector. */
  method FindSymbol(symbols: FixedVector<SymbolInfo>, query: string) returns (r: Option<nat>)
    requires symbols.Valid()
    ensures IsAnswer(symbols.AsSpan(), query, r)
  {
    var n := symbols.size;
    for i := 0 to n
      invariant forall k :: 0 <= k < i ==> Rank(symbols.AsSpan()[k].name, query) > 0
    {
      if symbols.data[i].name == query {
        return Some(i);
      }
    }
    for i := 0 to n
      invariant forall k :: 0 <= k < i ==> Rank(symbols.AsSpan()[k].name, query) > 1
    {
      var matched := MatchesLoop(symbols.data[i].name, query);
      if matched {
        return Some(i);
      }
    }
    for i := 0 to n
      invariant forall k :: 0 <= k < i ==> Rank(symbols.AsSpan()[k].name, query) == 3
    {
      var name := symbols.data[i].name;
      ScopedSuffixAt(name, query);
      if |name| > |query| + 2 {
        var sep := |name| - |query| - 2;
        assert name[sep..] == name[sep..sep + 2] + name[sep + 2..];
        if name[sep..sep + 2] == "::" && name[sep + 2..] == query {
          return Some(i);
        }
      }
    }
    return None;
  }

  // ----- Slices and patches -----

  datatype SymbolSlice = SymbolSlice(startLine: nat, endLine: nat, content: string)
  datatype PatchResult = PatchResult(oldStartLine: nat, oldEndLine: nat, newEndLine: nat)

  predicate InSource(s: SymbolInfo, src: string) { s.startByte <= s.endByte <= |src| }

  function SliceOf(s: SymbolInfo, src: string): string
    requires InSource(s, src)
  {
    src[s.startByte..s.endByte]
  }

  /** The source with the symbol's range replaced. */
  function Patched(s: SymbolInfo, src: string, replacement: string): string
    requires InSource(s, src)
  {
    src[..s.startByte] + replacement + src[s.endByte..]
  }

  /** The symbol's entry after its replacement. */
  function Replaced(s: SymbolInfo, replacement: string): SymbolInfo {
    s.(endByte := s.startByte + |replacement|, endLine := s.startLine + Newlines(replacement))
  }

  /** The symbol a query names in a parsed source. */
  ghost function Target(root: Node, src: string, lang: Lang, query: string): (r: Option<SymbolInfo>)
    requires Parsed(root, src)
    ensures r.Some? ==> InSource(r.value, src) && LinesOk([r.value], src)
  {
    SymbolsAreSound(root, src, lang);
    var names := Symbols(root, src, lang);
    match Answer(names, query)
    case None => None
    case Some(at) => Some(names[at])
  }

  /** The search both operations begin with. */
  method Locate(parser: Parser, src: string, lang: Lang, query: string) returns (r: Outcome<SymbolInfo>)
    requires parser.Ok(src)
    ensures r == match parser.Trouble(lang)
                 case Some(e) => Failed(e)
                 case None =>
                   match Target(parser.root, src, lang, query)
                   case None => Failed(NotFound)
                   case Some(s) => Done(s)
  {
    hide Symbols, Parsed, Rank, IsAnswer;
    var symbols := new FixedVector<SymbolInfo>(MAX_SYMBOLS);
    var extracted := ExtractSymbols(parser, src, lang, symbols);
    if extracted.Failed? {
      return Failed(extracted.error);
    }
    var found := FindSymbol(symbols, query);
    AnswerIsUnique(symbols.AsSpan(), query, found, Answer(symbols.AsSpan(), query));
    if found.None? {
      return Failed(NotFound);
    }
    return Done(symbols.data[found.value]);
  }

  /** `slice_symbol`: lines and text of the symbol found, or the first thing that fails. */
  method SliceSymbol(parser: Parser, src: string, lang: Lang, query: string) returns (r: Outcome<SymbolSlice>)
    requires parser.Ok(src)
    ensures r == match parser.Trouble(lang)
                 case Some(e) => Failed(e)
                 case None =>
                   match Target(parser.root, src, lang, query)
                   case None => Failed(NotFound)
                   case Some(s) => Done(SymbolSlice(s.startLine, s.endLine, SliceOf(s, src)))
  {
    hide Symbols, Parsed, Answer;
    var located := Locate(parser, src, lang, query);
    match located {
      case Failed(e) => r := Failed(e);
      case Done(s) =>
        var len := s.endByte - s.startByte;
        r := Done(SymbolSlice(s.startLine, s.endLine, src[s.startByte..s.startByte + len]));
    }
  }

  function Overwritten(d: string, at: nat, s: string): (r: string)
    requires at + |s| <= |d|
    ensures |r| == |d|
  {
    d[..at] + s + d[at + |s|..]
  }

  /** One `memcpy` into the destination. */
  method Copy(dest: array<char>, at: nat, s: string)
    requires at + |s| <= dest.Length
    modifies dest
    ensures dest[..] == Overwritten(old(dest[..]), at, s)
  {
    for i := 0 to |s|
      invariant forall k :: 0 <= k < i ==> dest[at + k] == s[k]
      invariant forall k :: 0 <= k < dest.Length && !(at <= k < at + i) ==> dest[k] == old(dest[k])
    {
      dest[at + i] := s[i];
    }
  }

  /** Copying behind a finished part. */
  lemma CopyBehind(d: string, done: string, rest: string, s: string)
    requires |s| <= |rest| && d == done + rest
    ensures Overwritten(d, |done|, s) == (done + s) + rest[|s|..]
  {
  }

  lemma ThreeCopies(d: string, a: string, b: string, c: string)
    requires |a| + |b| + |c| <= |d|
    ensures Overwritten(Overwritten(Overwritten(d, 0, a), |a|, b), |a| + |b|, c) == a + b + c + d[|a| + |b| + |c|..]
  {
    hide Overwritten;
    var d1, d2 := d[|a|..], d[|a| + |b|..];
    assert "" + d == d && "" + a == a && d1[|b|..] == d2 && d2[|c|..] == d[|a| + |b| + |c|..];
    CopyBehind(d, "", d, a);
    CopyBehind(a + d1, a, d1, b);
    CopyBehind((a + b) + d2, a + b, d2, c);
  }

  /** The three copies of a patch. */
  method Assemble(s: SymbolInfo, src: string, replacement: string, dest: array<char>)
    requires InSource(s, src) && |Patched(s, src, replacement)| <= dest.Length
    modifies dest
    ensures dest[..] == Patched(s, src, replacement) + old(dest[|Patched(s, src, replacement)|..])
  {
    ghost var was := dest[..];
    var prefix, suffix := src[..s.startByte], src[s.endByte..];
    assert Patched(s, src, replacement) == prefix + replacement + suffix;
    ThreeCopies(was, prefix, replacement, suffix);
    hide Overwritten, Patched;
    Copy(dest, 0, prefix);
    Copy(dest, |prefix|, replacement);
    Copy(dest, |prefix| + |replacement|, suffix);
  }

  /** `patch_symbol`: the patched source goes to the front of the destination; a failure writes nothing. */
  method PatchSymbol(parser: Parser, src: string, lang: Lang, query: string, replacement: string, dest: array<char>)
    returns (r: Outcome<nat>, result: PatchResult)
    requires parser.Ok(src)
    modifies dest
    ensures r == match parser.Trouble(lang)
                 case Some(e) => Failed(e)
                 case None =>
                   match Target(parser.root, src, lang, query)
                   case None => Failed(NotFound)
                   case Some(s) => if |Patched(s, src, replacement)| > dest.Length then Failed(BufferOverflow)
                                   else Done(|Patched(s, src, replacement)|)
    ensures r.Failed? ==> dest[..] == old(dest[..])
    ensures r.Done? ==>
      var s := Target(parser.root, src, lang, query).value;
      && dest[..] == Patched(s, src, replacement) + old(dest[r.value..])
      && result == PatchResult(s.startLine, s.endLine, Replaced(s, replacement).endLine)
  {
    hide Symbols, Parsed, Answer, Target;
    result := PatchResult(0, 0, 0);
    var located := Locate(parser, src, lang, query);
    if located.Failed? {
      return Failed(located.error), result;
    }
    var s := located.value;
    var total := s.startByte + |replacement| + (|src| - s.endByte);
    if total > dest.Length {
      return Failed(BufferOverflow), result;
    }
    Assemble(s, src, replacement, dest);
    var newlines := CountNewlines(replacement);
    return Done(total), PatchResult(s.startLine, s.endLine, s.startLine + newlines);
  }

  method CountNewlines(s: string) returns (n: nat)
    ensures n == Newlines(s)
  {
    n := 0;
    for i := 0 to |s|
      invariant n == Newlines(s[..i])
    {
      assert s[..i + 1][..i] == s[..i];
      if s[i] == '\n' {
        n := n + 1;
      }
    }
    assert s[..|s|] == s;
  }

  // ----- Laws of patching -----

  lemma {:induction false} NewlinesConcat(a: string, b: string)
    ensures Newlines(a + b) == Newlines(a) + Newlines(b)
    decreases |b|
  {
    if b == "" {
      assert a + b == a;
    } else {
      NewlinesConcat(a, b[..|b| - 1]);
      assert (a + b)[..|a + b| - 1] == a + b[..|b| - 1];
    }
  }

  /** The replacement stands where the symbol stood, and putting the old text back restores the source. */
  lemma PatchUndoes(s: SymbolInfo, src: string, replacement: string)
    requires InSource(s, src)
    ensures InSource(Replaced(s, replacement), Patched(s, src, replacement))
    ensures SliceOf(Replaced(s, replacement), Patched(s, src, replacement)) == replacement
    ensures Patched(Replaced(s, replacement), Patched(s, src, replacement), SliceOf(s, src)) == src
  {
    assert src == src[..s.startByte] + SliceOf(s, src) + src[s.endByte..];
  }

  /** Patching a symbol with its own slice changes neither the source nor the lines. */
  lemma OwnSliceIsIdentity(s: SymbolInfo, src: string)
    requires InSource(s, src) && LinesOk([s], src)
    ensures Patched(s, src, SliceOf(s, src)) == src
    ensures Replaced(s, SliceOf(s, src)) == s
  {
    assert s in [s];
    assert src[..s.endByte] == src[..s.startByte] + SliceOf(s, src);
    NewlinesConcat(src[..s.startByte], SliceOf(s, src));
  }

  /** The replacement's lines are those of its range in the new source: it ends at `new_end_line`. */
  lemma ReplacedLines(s: SymbolInfo, src: string, replacement: string)
    requires InSource(s, src) && LinesOk([s], src)
    ensures LinesOk([Replaced(s, replacement)], Patched(s, src, replacement))
  {
    var p, r := Patched(s, src, replacement), Replaced(s, replacement);
    assert s in [s];
    assert p[..r.startByte] == src[..s.startByte];
    assert p[..r.endByte] == src[..s.startByte] + replacement;
    NewlinesConcat(src[..s.startByte], replacement);
  }

  /** What lies before a patched symbol stays; what lies behind it moves by
      `new_end_line - old_end_line` lines. */
  lemma PatchShiftsLines(s: SymbolInfo, src: string, replacement: string, at: nat)
    requires InSource(s, src) && LinesOk([s], src) && at <= |src|
    ensures var p := Patched(s, src, replacement);
      && (at <= s.startByte ==> p[..at] == src[..at])
      && (at >= s.endByte ==>
            var moved := at - s.endByte + s.startByte + |replacement|;
            && p[moved..] == src[at..]
            && Newlines(p[..moved]) - Newlines(src[..at]) == Replaced(s, replacement).endLine - s.endLine)
  {
    hide Newlines;
    var p, r := Patched(s, src, replacement), Replaced(s, replacement);
    if at >= s.endByte {
      ReplacedLines(s, src, replacement);
      assert s in [s] && r in [r];
      var moved, between := at - s.endByte + r.endByte, src[s.endByte..at];
      assert src[..at] == src[..s.endByte] + between;
      assert p[..moved] == p[..r.endByte] + between;
      NewlinesConcat(src[..s.endByte], between);
      NewlinesConcat(p[..r.endByte], between);
    }
  }

  /** The entry of a symbol behind a patched one. */
  function Shifted(s: SymbolInfo, shift: int): SymbolInfo
    requires 0 <= s.startByte + shift && 0 <= s.endByte + shift
  {
    s.(startByte := s.startByte + shift, endByte := s.endByte + shift)
  }

  /** Patches of disjoint symbols may be applied in either order. */
  lemma DisjointPatchesCommute(a: SymbolInfo, b: SymbolInfo, src: string, ra: string, rb: string)
    requires InSource(a, src) && InSource(b, src) && a.endByte <= b.startByte
    ensures var shift := |ra| - (a.endByte - a.startByte);
      && InSource(Shifted(b, shift), Patched(a, src, ra)) && InSource(a, Patched(b, src, rb))
      && SliceOf(Shifted(b, shift), Patched(a, src, ra)) == SliceOf(b, src)
      && Patched(Shifted(b, shift), Patched(a, src, ra), rb) == Patched(a, Patched(b, src, rb), ra)
  {
    var shift := |ra| - (a.endByte - a.startByte);
    var pa, pb := Patched(a, src, ra), Patched(b, src, rb);
    var middle := src[a.endByte..b.startByte];
    assert pa[..b.startByte + shift] == src[..a.startByte] + ra + middle;
    assert pa[b.endByte + shift..] == src[b.endByte..];
    assert pb[..a.startByte] == src[..a.startByte];
    assert pb[a.endByte..] == middle + rb + src[b.endByte..];
  }

  /** Any two symbols of a parsed source are nested, or their patches commute. */
  lemma NestedOrIndependent(root: Node, src: string, lang: Lang, i: nat, j: nat, ri: string, rj: string)
    requires Parsed(root, src) && i < j < |Symbols(root, src, lang)|
    ensures var a, b := Symbols(root, src, lang)[i], Symbols(root, src, lang)[j];
      && InSource(a, src) && InSource(b, src)
      && (|| (a.startByte <= b.startByte && b.endByte <= a.endByte)
          || (var shift := |ri| - (a.endByte - a.startByte);
              && a.endByte <= b.startByte
              && InSource(Shifted(b, shift), Patched(a, src, ri)) && InSource(a, Patched(b, src, rj))
              && Patched(Shifted(b, shift), Patched(a, src, ri), rj) == Patched(a, Patched(b, src, rj), ri)))
  {
    hide Symbols, Parsed, Patched;
    SymbolsAreSound(root, src, lang);
    var a, b := Symbols(root, src, lang)[i], Symbols(root, src, lang)[j];
    if a.endByte <= b.startByte {
      DisjointPatchesCommute(a, b, src, ri, rj);
    }
  }
}
