/** Reading a printed diff back: the text that `include/axiom/diff.hpp` prints says which line of the diff it
    is, sizes included. */
module DiffText {
  import opened Search
  import opened DecimalText
  import opened Diff
  import opened HostSync

  // ----- A reader -----

  /** What one line of text says, by its words. */
  function ReadLine(text: string): Option<Line> {
    var w := Words(text);
    if |w| == 2 && w[0] == "-" then Some(Removed(w[1]))
    else if |w| == 4 && w[0] == "+" && "(" <= w[2] && w[3] == "B)" then Some(Added(w[1], Value(w[2][1..])))
    else if |w| == 6 && w[0] == "M" && "(" <= w[2] && w[3] == "->" && w[5] == "B)"
    then Some(Modified(w[1], Value(w[2][1..]), Value(w[4])))
    else None
  }

  function ReadLines(texts: seq<string>): seq<Line>
    decreases texts
  {
    if texts == [] then []
    else (match ReadLine(texts[0]) case None => [] case Some(l) => [l]) + ReadLines(texts[1..])
  }

  function ReadDiff(text: string): seq<Line> { ReadLines(Lines(text)) }

  // ----- Words -----

  function Spaced(words: seq<string>): string
    decreases words
  {
    if words == [] then "" else if |words| == 1 then words[0] else words[0] + (" " + Spaced(words[1..]))
  }

  lemma {:induction false} WordsOfSpaced(words: seq<string>)
    requires forall w :: w in words ==> Clean(w)
    ensures Words(Spaced(words)) == words
    decreases |words|
  {
    hide Clean, Words;
    if words == [] {
      NoWords();
    } else if |words| == 1 {
      FirstWord(words[0], "");
      NoWords();
      assert words[0] + "" == words[0];
    } else {
      SpacesAre();
      WordsOfSpaced(words[1..]);
      FirstWord(words[0], " " + Spaced(words[1..]));
      SkipSpace(Spaced(words[1..]));
    }
  }

  lemma NoWords()
    ensures Words("") == []
  {
  }

  /** The words of a line. */
  function Tokens(l: Line): seq<string> {
    match l
    case Added(path, size) => ["+", path, "(" + Decimal(size), "B)"]
    case Modified(path, oldSize, newSize) => ["M", path, "(" + Decimal(oldSize), "->", Decimal(newSize), "B)"]
    case Removed(path) => ["-", path]
  }

  lemma FourWords(a: string, b: string, c: string, d: string)
    ensures Spaced([a, b, c, d]) == a + (" " + (b + (" " + (c + (" " + d)))))
  {
    assert [a, b, c, d][1..] == [b, c, d] && [b, c, d][1..] == [c, d] && [c, d][1..] == [d];
    assert Spaced([c, d]) == c + (" " + d);
    assert Spaced([b, c, d]) == b + (" " + (c + (" " + d)));
  }

  lemma BodyIsSpaced(l: Line)
    ensures Body(l) == Spaced(Tokens(l))
  {
    hide Decimal;
    match l
    case Added(path, size) =>
      var d := Decimal(size);
      FourWords("+", path, "(" + d, "B)");
      assert " (" + d + " B)" == " " + (("(" + d) + (" " + "B)"));
    case Modified(path, oldSize, newSize) =>
      SixWords("M", path, "(" + Decimal(oldSize), "->", Decimal(newSize), "B)");
      SizesRegrouped(path, Decimal(oldSize), Decimal(newSize));
    case Removed(path) =>
      assert ["-", path][1..] == [path];
      assert path + "" == path;
  }

  lemma SixWords(a: string, b: string, c: string, d: string, e: string, f: string)
    ensures Spaced([a, b, c, d, e, f]) == a + (" " + (b + (" " + (c + (" " + (d + (" " + (e + (" " + f)))))))))
  {
    assert [a, b, c, d, e, f][1..] == [b, c, d, e, f] && [b, c, d, e, f][1..] == [c, d, e, f];
    FourWords(c, d, e, f);
  }

  lemma SizesRegrouped(path: string, a: string, b: string)
    ensures path + (" (" + a + " -> " + b + " B)")
         == path + (" " + (("(" + a) + (" " + ("->" + (" " + (b + (" " + "B)")))))))
  {
  }

  lemma DigitsAreClean(n: nat)
    ensures Clean(Decimal(n)) && Clean("(" + Decimal(n))
  {
    assert forall c: char :: IsDigit(c) || c == '(' ==> !Space(c);
    hide Decimal;
  }

  lemma MarksAreClean()
    ensures Clean("+") && Clean("M") && Clean("-") && Clean("B)") && Clean("->")
  {
  }

  lemma TokensAreClean(l: Line)
    requires Clean(l.path)
    ensures forall w :: w in Tokens(l) ==> Clean(w)
  {
    hide Clean, Decimal;
    MarksAreClean();
    match l
    case Added(path, size) => DigitsAreClean(size);
    case Modified(path, oldSize, newSize) =>
      DigitsAreClean(oldSize);
      DigitsAreClean(newSize);
    case Removed(path) =>
  }

  // ----- Reading back -----

  lemma LineIsRead(l: Line)
    requires Clean(l.path)
    ensures ReadLine(Body(l)) == Some(l)
  {
    hide Words, Clean, Spaced, Body, Decimal, Value;
    BodyIsSpaced(l);
    TokensAreClean(l);
    WordsOfSpaced(Tokens(l));
    match l
    case Added(path, size) =>
      ValueOfDecimal(size);
      assert ("(" + Decimal(size))[1..] == Decimal(size);
    case Modified(path, oldSize, newSize) =>
      ValueOfDecimal(oldSize);
      ValueOfDecimal(newSize);
      assert ("(" + Decimal(oldSize))[1..] == Decimal(oldSize);
    case Removed(path) =>
  }

  /** Every printed list of lines with clean paths is read back, sizes included. */
  lemma {:induction false} ReadPrinted(lines: seq<Line>)
    requires forall l :: l in lines ==> Clean(l.path)
    ensures ReadDiff(PrintAll(lines)) == lines
    decreases |lines|
  {
    hide Print, Body, ReadLine, Clean;
    if lines == [] {
      EmptyIsRead();
    } else {
      var l, rest := lines[0], PrintAll(lines[1..]);
      PrintIsBody(l);
      BodyParses(l);
      LineIsRead(l);
      FirstLine(Body(l), rest);
      ReadPrinted(lines[1..]);
      assert ([Body(l)] + Lines(rest))[1..] == Lines(rest);
    }
  }

  lemma EmptyIsRead()
    ensures ReadDiff("") == []
  {
    assert Lines("") == [""] && Words("") == [];
    assert [""][1..] == [];
  }

  /** What is read from the text of a diff of any room: lines that are true of the two snapshots, sizes
      included; and all of them when they fit. */
  lemma TextIsTrue(pre: seq<FileRecord>, post: seq<FileRecord>, cap: nat)
    requires UniquePaths(pre) && UniquePaths(post) && forall r :: r in pre + post ==> Clean(r.path)
    ensures var text := PrintAll(Kept(DiffLines(pre, post), 0, cap));
            && ReadDiff(text) == Kept(DiffLines(pre, post), 0, cap)
            && (forall l :: l in ReadDiff(text) ==> True(l, pre, post))
            && (|PrintAll(DiffLines(pre, post))| < cap ==>
                 forall l :: l in ReadDiff(text) <==> True(l, pre, post))
  {
    hide Print, Clean, DiffLines, Kept, PrintAll, ReadDiff, True, Lookup;
    var lines := DiffLines(pre, post);
    var kept := Kept(lines, 0, cap);
    KeptIsSelection(lines, 0, cap);
    forall l | l in kept ensures Clean(l.path) {
      LinePaths(pre, post, l);
    }
    ReadPrinted(kept);
    forall l ensures l in lines <==> True(l, pre, post) {
      DiffLinesAreTrue(pre, post, l);
    }
  }

  /** `WorkspaceDiff::compute_diff`, read back. */
  method ComputeAndRead(pre: seq<FileRecord>, post: seq<FileRecord>, dest: array<char>) returns (n: nat)
    requires UniquePaths(pre) && UniquePaths(post) && forall r :: r in pre + post ==> Clean(r.path)
    modifies dest
    ensures n <= dest.Length
    ensures forall l :: l in ReadDiff(dest[..n]) ==> True(l, pre, post)
    ensures |PrintAll(DiffLines(pre, post))| < dest.Length ==>
              forall l :: l in ReadDiff(dest[..n]) <==> True(l, pre, post)
  {
    TextIsTrue(pre, post, dest.Length);
    hide *;
    n := ComputeDiff(pre, post, dest);
  }
}
