/**
 * scripts/lib/addons.py: how content is cut into documents, and when packed sources read back as the same
 * documents. Which characters are white space is a parameter; a line break is, and a dash is not.
 */
module AddonContent {
  import opened Base
  import opened Addons

  type Blank = char -> bool

  predicate Usual(blank: Blank) {
    blank('\n') && !blank('-')
  }

  // ---- lines -------------------------------------------------------------------------------

  function Lines(s: string): (lines: seq<string>)
    ensures lines != []
  {
    if s == "" then [""]
    else
      var rest := Lines(s[1..]);
      if s[0] == '\n' then [""] + rest else [[s[0]] + rest[0]] + rest[1..]
  }

  function Unlines(lines: seq<string>): string {
    if lines == [] then "" else if |lines| == 1 then lines[0] else lines[0] + "\n" + Unlines(lines[1..])
  }

  lemma {:induction false} LinesOfBoth(a: string, b: string)
    ensures Lines(a + "\n" + b) == Lines(a) + Lines(b)
  {
    var s := a + "\n" + b;
    if a == "" {
      assert s[1..] == b;
    } else {
      assert s[0] == a[0] && s[1..] == a[1..] + "\n" + b;
      LinesOfBoth(a[1..], b);
    }
  }

  lemma {:induction false} OneLine(s: string)
    requires '\n' !in s
    ensures Lines(s) == [s]
  {
    if s != "" {
      OneLine(s[1..]);
      assert s == [s[0]] + s[1..];
    }
  }

  lemma {:induction false} LinesReadBack(s: string)
    ensures Unlines(Lines(s)) == s
  {
    if s != "" {
      var rest := Lines(s[1..]);
      LinesReadBack(s[1..]);
      assert s == [s[0]] + s[1..];
      if s[0] == '\n' {
        assert Lines(s)[1..] == rest;
      } else {
        assert Lines(s)[1..] == rest[1..];
        var more := "\n" + Unlines(rest[1..]);
        assert [s[0]] + (rest[0] + more) == [s[0]] + rest[0] + more;
      }
    }
  }

  // ---- documents ---------------------------------------------------------------------------

  /** A separator line: three dashes, then nothing but white space. */
  predicate Separates(blank: Blank, line: string) {
    |line| >= 3 && line[..3] == "---" && forall i :: 3 <= i < |line| ==> blank(line[i])
  }

  /** The groups of lines between separator lines. */
  function Groups(blank: Blank, lines: seq<string>): (groups: seq<seq<string>>)
    ensures groups != []
  {
    if lines == [] then [[]]
    else
      var rest := Groups(blank, lines[1..]);
      if Separates(blank, lines[0]) then [[]] + rest else [[lines[0]] + rest[0]] + rest[1..]
  }

  /** Without the white space at both ends. */
  function Stripped(blank: Blank, s: string): string {
    if s == "" then ""
    else if blank(s[0]) then Stripped(blank, s[1..])
    else if blank(s[|s| - 1]) then Stripped(blank, s[..|s| - 1])
    else s
  }

  function Texts(blank: Blank, groups: seq<seq<string>>): seq<string> {
    if groups == [] then []
    else
      var text := Stripped(blank, Unlines(groups[0]));
      (if text == "" then [] else [text]) + Texts(blank, groups[1..])
  }

  /** The documents of a content: what stands between separator lines, stripped, unless nothing does. */
  function Documents(blank: Blank, content: string): seq<string> {
    Texts(blank, Groups(blank, Lines(content)))
  }

  /** A document that is stripped and not empty, as the packer is given them. */
  predicate Proper(blank: Blank, document: string) {
    document != "" && !blank(document[0]) && !blank(document[|document| - 1])
  }

  lemma {:induction false} StrippedIsProper(blank: Blank, s: string)
    ensures Stripped(blank, s) != "" ==> Proper(blank, Stripped(blank, s))
    decreases |s|
  {
    if s != "" {
      if blank(s[0]) {
        StrippedIsProper(blank, s[1..]);
      } else if blank(s[|s| - 1]) {
        StrippedIsProper(blank, s[..|s| - 1]);
      }
    }
  }

  lemma {:induction false} TextsAreProper(blank: Blank, groups: seq<seq<string>>, i: nat)
    requires i < |Texts(blank, groups)|
    ensures Proper(blank, Texts(blank, groups)[i])
    decreases |groups|
  {
    var text := Stripped(blank, Unlines(groups[0]));
    StrippedIsProper(blank, Unlines(groups[0]));
    hide Stripped, Unlines, Proper;
    if text == "" {
      TextsAreProper(blank, groups[1..], i);
    } else if i > 0 {
      TextsAreProper(blank, groups[1..], i - 1);
    }
  }

  /** What the packer is given is never empty and has no white space at its ends. */
  lemma DocumentsAreProper(blank: Blank, content: string)
    ensures forall i :: 0 <= i < |Documents(blank, content)| ==> Proper(blank, Documents(blank, content)[i])
  {
    forall i | 0 <= i < |Documents(blank, content)| ensures Proper(blank, Documents(blank, content)[i]) {
      TextsAreProper(blank, Groups(blank, Lines(content)), i);
    }
  }

  lemma {:induction false} GroupsOfBoth(blank: Blank, x: seq<string>, line: string, y: seq<string>)
    requires Separates(blank, line)
    ensures Groups(blank, x + [line] + y) == Groups(blank, x) + Groups(blank, y)
  {
    var all := x + [line] + y;
    if x == [] {
      assert all[0] == line && all[1..] == y;
    } else {
      assert all[0] == x[0] && all[1..] == x[1..] + [line] + y;
      GroupsOfBoth(blank, x[1..], line, y);
    }
  }

  lemma {:induction false} TextsOfBoth(blank: Blank, g: seq<seq<string>>, h: seq<seq<string>>)
    ensures Texts(blank, g + h) == Texts(blank, g) + Texts(blank, h)
  {
    if g == [] {
      assert g + h == h;
    } else {
      assert (g + h)[1..] == g[1..] + h;
      TextsOfBoth(blank, g[1..], h);
    }
  }

  lemma LinesAroundSeparator(a: string, b: string)
    ensures Lines(a + SEPARATOR + b) == Lines(a) + ["---"] + Lines(b)
  {
    var tail := "---" + "\n" + b;
    assert a + SEPARATOR + b == a + "\n" + tail;
    LinesOfBoth(a, tail);
    LinesOfBoth("---", b);
    OneLine("---");
  }

  /** Joining two contents joins their documents. */
  lemma DocumentsOfBoth(blank: Blank, a: string, b: string)
    ensures Documents(blank, a + SEPARATOR + b) == Documents(blank, a) + Documents(blank, b)
  {
    LinesAroundSeparator(a, b);
    assert Separates(blank, "---");
    hide Lines, Separates;
    GroupsOfBoth(blank, Lines(a), "---", Lines(b));
    TextsOfBoth(blank, Groups(blank, Lines(a)), Groups(blank, Lines(b)));
  }

  /** How many of the lines are separator lines. */
  function Separators(blank: Blank, lines: seq<string>): nat {
    if lines == [] then 0
    else (if Separates(blank, lines[0]) then 1 else 0) + Separators(blank, lines[1..])
  }

  lemma {:induction false} NoSeparator(blank: Blank, lines: seq<string>)
    requires Separators(blank, lines) == 0
    ensures Groups(blank, lines) == [lines]
  {
    if lines != [] {
      NoSeparator(blank, lines[1..]);
      assert lines == [lines[0]] + lines[1..];
    }
  }

  lemma OneDocument(blank: Blank, document: string)
    requires Proper(blank, document) && Separators(blank, Lines(document)) == 0
    ensures Documents(blank, document) == [document]
  {
    NoSeparator(blank, Lines(document));
    LinesReadBack(document);
    hide Lines, Unlines;
    assert Texts(blank, [Lines(document)]) == [document] + Texts(blank, []);
  }

  // ---- what splitting loses ----------------------------------------------------------------

  /** The characters that are not white space. */
  function Ink(blank: Blank, s: string): nat {
    if s == "" then 0 else (if blank(s[0]) then 0 else 1) + Ink(blank, s[1..])
  }

  function InkOfAll(blank: Blank, texts: seq<string>): nat {
    if texts == [] then 0 else Ink(blank, texts[0]) + InkOfAll(blank, texts[1..])
  }

  lemma {:induction false} InkOfBoth(blank: Blank, a: string, b: string)
    ensures Ink(blank, a + b) == Ink(blank, a) + Ink(blank, b)
  {
    if a == "" {
      assert a + b == b;
    } else {
      assert (a + b)[1..] == a[1..] + b;
      InkOfBoth(blank, a[1..], b);
    }
  }

  lemma {:induction false} InkOfAllBoth(blank: Blank, a: seq<string>, b: seq<string>)
    ensures InkOfAll(blank, a + b) == InkOfAll(blank, a) + InkOfAll(blank, b)
  {
    if a == [] {
      assert a + b == b;
    } else {
      assert (a + b)[1..] == a[1..] + b;
      InkOfAllBoth(blank, a[1..], b);
    }
  }

  lemma {:induction false} InkStaysStripped(blank: Blank, s: string)
    ensures Ink(blank, Stripped(blank, s)) == Ink(blank, s)
    decreases |s|
  {
    if s != "" {
      var last := s[|s| - 1];
      if blank(s[0]) {
        InkStaysStripped(blank, s[1..]);
      } else if blank(last) {
        InkStaysStripped(blank, s[..|s| - 1]);
        assert s == s[..|s| - 1] + [last];
        InkOfBoth(blank, s[..|s| - 1], [last]);
        assert Ink(blank, [last]) == 0;
      }
    }
  }

  lemma {:induction false} InkOfLines(blank: Blank, lines: seq<string>)
    requires blank('\n')
    ensures Ink(blank, Unlines(lines)) == InkOfAll(blank, lines)
  {
    if |lines| == 1 {
      assert lines[1..] == [];
    } else if lines != [] {
      InkOfLines(blank, lines[1..]);
      InkOfBoth(blank, lines[0] + "\n", Unlines(lines[1..]));
      InkOfBoth(blank, lines[0], "\n");
      assert Ink(blank, "\n") == 0;
    }
  }

  lemma {:induction false} BlankHasNoInk(blank: Blank, s: string)
    requires forall i :: 0 <= i < |s| ==> blank(s[i])
    ensures Ink(blank, s) == 0
  {
    if s != "" {
      BlankHasNoInk(blank, s[1..]);
    }
  }

  lemma SeparatorInk(blank: Blank, line: string)
    requires !blank('-') && Separates(blank, line)
    ensures Ink(blank, line) == 3
  {
    assert line == "---" + line[3..];
    InkOfBoth(blank, "---", line[3..]);
    BlankHasNoInk(blank, line[3..]);
    assert "-"[1..] == "" && "--"[1..] == "-" && "---"[1..] == "--";
    assert Ink(blank, "-") == 1;
    assert Ink(blank, "--") == 2;
  }

  function InkOfGroups(blank: Blank, groups: seq<seq<string>>): nat {
    if groups == [] then 0 else InkOfAll(blank, groups[0]) + InkOfGroups(blank, groups[1..])
  }

  lemma {:induction false} GroupsLoseSeparators(blank: Blank, lines: seq<string>)
    requires !blank('-')
    ensures InkOfGroups(blank, Groups(blank, lines)) + 3 * Separators(blank, lines) == InkOfAll(blank, lines)
  {
    if lines == [] {
      assert Groups(blank, lines)[1..] == [];
    } else {
      var rest := Groups(blank, lines[1..]);
      GroupsLoseSeparators(blank, lines[1..]);
      if Separates(blank, lines[0]) {
        SeparatorInk(blank, lines[0]);
        assert Groups(blank, lines)[1..] == rest;
      } else {
        assert Groups(blank, lines)[1..] == rest[1..] && ([lines[0]] + rest[0])[1..] == rest[0];
      }
    }
  }

  lemma {:induction false} TextsKeepInk(blank: Blank, groups: seq<seq<string>>)
    requires blank('\n')
    ensures InkOfAll(blank, Texts(blank, groups)) == InkOfGroups(blank, groups)
  {
    if groups != [] {
      var text := Stripped(blank, Unlines(groups[0]));
      TextsKeepInk(blank, groups[1..]);
      InkStaysStripped(blank, Unlines(groups[0]));
      InkOfLines(blank, groups[0]);
      InkOfAllBoth(blank, if text == "" then [] else [text], Texts(blank, groups[1..]));
      assert InkOfAll(blank, [text]) == Ink(blank, text);
    }
  }

  /** Splitting loses the separator lines and white space, and nothing else. */
  lemma SplittingLoses(blank: Blank, content: string)
    requires Usual(blank)
    ensures InkOfAll(blank, Documents(blank, content)) + 3 * Separators(blank, Lines(content)) == Ink(blank, content)
  {
    var lines := Lines(content);
    LinesReadBack(content);
    InkOfLines(blank, lines);
    GroupsLoseSeparators(blank, lines);
    TextsKeepInk(blank, Groups(blank, lines));
  }

  // ---- reading packed documents back -------------------------------------------------------

  /** No document contains a separator line. */
  ghost predicate Unseparated(blank: Blank, documents: seq<string>) {
    forall i :: 0 <= i < |documents| ==> Separators(blank, Lines(documents[i])) == 0
  }

  lemma {:induction false} JoinedReads(blank: Blank, documents: seq<string>)
    requires Usual(blank) && documents != [] && forall i :: 0 <= i < |documents| ==> Proper(blank, documents[i])
    ensures Unseparated(blank, documents) ==> Documents(blank, Joined(documents)) == documents
    ensures InkOfAll(blank, Documents(blank, Joined(documents))) <= InkOfAll(blank, documents)
    ensures !Unseparated(blank, documents) ==>
              InkOfAll(blank, Documents(blank, Joined(documents))) < InkOfAll(blank, documents)
    decreases |documents|
  {
    var last := documents[|documents| - 1];
    var front := documents[..|documents| - 1];
    assert documents == front + [last];
    SplittingLoses(blank, last);
    hide Documents, Lines, Ink;
    if Separators(blank, Lines(last)) == 0 {
      OneDocument(blank, last);
    }
    InkOfAllBoth(blank, front, [last]);
    assert InkOfAll(blank, [last]) == Ink(blank, last) + InkOfAll(blank, []);
    if front != [] {
      JoinedReads(blank, front);
      DocumentsOfBoth(blank, Joined(front), last);
      InkOfAllBoth(blank, Documents(blank, Joined(front)), Documents(blank, last));
      assert Unseparated(blank, documents) <==>
        Unseparated(blank, front) && Separators(blank, Lines(last)) == 0;
    }
  }

  /** Joined documents read back as they were exactly when none contains a separator line. */
  lemma ReadsBackIff(blank: Blank, documents: seq<string>)
    requires Usual(blank) && documents != [] && forall i :: 0 <= i < |documents| ==> Proper(blank, documents[i])
    ensures Documents(blank, Joined(documents)) == documents <==> Unseparated(blank, documents)
  {
    JoinedReads(blank, documents);
  }

  ghost predicate ReadsBack(blank: Blank, job: Job, cuts: seq<nat>, sources: seq<Source>, k: nat)
    requires Packs(job, cuts, sources) && k < |sources|
  {
    && cuts[k] < cuts[k + 1] <= |job.documents|
    && Documents(blank, sources[k].content) == job.documents[cuts[k]..cuts[k + 1]]
  }

  lemma ChunkReadsBackIff(blank: Blank, job: Job, cuts: seq<nat>, sources: seq<Source>, k: nat)
    requires Usual(blank) && Packs(job, cuts, sources) && k < |sources|
    requires forall i :: 0 <= i < |job.documents| ==> Proper(blank, job.documents[i])
    ensures cuts[k] < cuts[k + 1] <= |job.documents|
    ensures ReadsBack(blank, job, cuts, sources, k) <==> Unseparated(blank, job.documents[cuts[k]..cuts[k + 1]])
  {
    hide Documents, Separators, Lines, Joined;
    assert ChunkHolds(job, cuts, k, sources[k].content);
    ReadsBackIff(blank, job.documents[cuts[k]..cuts[k + 1]]);
  }

  /** Every packed source reads back as its documents exactly when no document contains a separator line. */
  lemma PackedReadsBackIff(blank: Blank, job: Job, cuts: seq<nat>, sources: seq<Source>)
    requires Usual(blank) && Packs(job, cuts, sources)
    requires forall i :: 0 <= i < |job.documents| ==> Proper(blank, job.documents[i])
    ensures (forall k :: 0 <= k < |sources| ==> ReadsBack(blank, job, cuts, sources, k))
            <==> Unseparated(blank, job.documents)
  {
    hide Documents, Separators, Lines, Joined;
    if Unseparated(blank, job.documents) {
      forall k | 0 <= k < |sources| ensures ReadsBack(blank, job, cuts, sources, k) {
        ChunkReadsBackIff(blank, job, cuts, sources, k);
      }
    }
    if forall k :: 0 <= k < |sources| ==> ReadsBack(blank, job, cuts, sources, k) {
      forall i | 0 <= i < |job.documents| ensures Separators(blank, Lines(job.documents[i])) == 0 {
        var k := ChunkOf(cuts, i);
        assert ReadsBack(blank, job, cuts, sources, k);
        ChunkReadsBackIff(blank, job, cuts, sources, k);
        assert job.documents[cuts[k]..cuts[k + 1]][i - cuts[k]] == job.documents[i];
      }
    }
  }

  /** Stripping can make a separator line out of an indented one, and such a document is lost. */
  lemma IndentedSeparatorIsLost(blank: Blank)
    requires Usual(blank) && blank(' ')
    ensures Documents(blank, " ---") == ["---"] && Proper(blank, "---") && Documents(blank, "---") == []
  {
    OneLine("---");
    OneLine(" ---");
    assert " ---"[1..] == "---";
    assert !Separates(blank, " ---") && Separates(blank, "---");
    assert Groups(blank, [" ---"]) == [[" ---"]];
    assert Groups(blank, ["---"]) == [[], []];
    assert Stripped(blank, " ---") == Stripped(blank, "---") == "---";
    assert Texts(blank, [[" ---"]]) == ["---"] + Texts(blank, []);
    var none: seq<seq<string>> := [[], []];
    assert none[1..] == [[]] && none[1..][1..] == [];
    assert Texts(blank, none) == Texts(blank, none[1..]) == Texts(blank, []);
  }
}
