/**
 * The text handling of `export_pdf` in market_agents/app.py: the loop that
 * replaces typographic characters by ASCII before the PDF font sees them,
 * and the split of the report's markdown into an introduction and titled
 * sections, skipping blank and visualization sections.
 */
module PdfText {
  import opened Optional
  import opened PyStr

  // ------------------------------------------------------------ sanitising

  /** The `replacements` dictionary of `export_pdf`, in its insertion order. */
  const Replacements: seq<(char, string)> := [
    ('\U{2018}', "'"), ('\U{2019}', "'"),
    ('\U{201C}', "\""), ('\U{201D}', "\""),
    ('\U{2013}', "-"), ('\U{2014}', "-"),
    ('\U{2026}', "..."),
    ('\U{00A0}', " ")
  ]

  /** Curly quotes, en and em dash, ellipsis and the no-break space. */
  predicate Typographic(c: char) {
    c == '\U{2018}' || c == '\U{2019}' || c == '\U{201C}' || c == '\U{201D}'
    || c == '\U{2013}' || c == '\U{2014}' || c == '\U{2026}' || c == '\U{00A0}'
  }

  predicate Ascii(s: string) {
    forall j :: 0 <= j < |s| ==> s[j] < '\U{0080}'
  }

  /** What `c` has become once the first `i` replacements have run. */
  function TranslateFirst(c: char, i: nat): (r: string)
    requires i <= |Replacements|
  {
    if i == 0 then [c]
    else if c == Replacements[i - 1].0 then Replacements[i - 1].1
    else TranslateFirst(c, i - 1)
  }

  /** The text once the first `i` replacements have run, character by character. */
  function CleanUpTo(s: string, i: nat): string
    requires i <= |Replacements|
    decreases |s|
  {
    if s == [] then [] else TranslateFirst(s[0], i) + CleanUpTo(s[1..], i)
  }

  /** The sanitised text: every typographic character replaced by its ASCII stand-in. */
  function Clean(s: string): string {
    CleanUpTo(s, |Replacements|)
  }

  /** Each replacement stands a typographic character by ASCII text, and no key repeats. */
  lemma ReplacementsShape()
    ensures forall i :: 0 <= i < |Replacements| ==> Typographic(Replacements[i].0) && Ascii(Replacements[i].1)
    ensures forall i, j :: 0 <= i < j < |Replacements| ==> Replacements[i].0 != Replacements[j].0
    ensures forall c :: Typographic(c) ==> exists i :: 0 <= i < |Replacements| && Replacements[i].0 == c
  {
    forall c | Typographic(c) ensures exists i :: 0 <= i < |Replacements| && Replacements[i].0 == c {
      if c == '\U{2018}' { assert Replacements[0].0 == c; }
      else if c == '\U{2019}' { assert Replacements[1].0 == c; }
      else if c == '\U{201C}' { assert Replacements[2].0 == c; }
      else if c == '\U{201D}' { assert Replacements[3].0 == c; }
      else if c == '\U{2013}' { assert Replacements[4].0 == c; }
      else if c == '\U{2014}' { assert Replacements[5].0 == c; }
      else if c == '\U{2026}' { assert Replacements[6].0 == c; }
      else { assert Replacements[7].0 == c; }
    }
  }

  /** ASCII text holds no typographic character. */
  lemma {:induction false} AsciiLacks(s: string, c: char)
    requires Ascii(s) && Typographic(c)
    ensures !Contains(s, [c])
  {
    forall k: nat ensures !OccursAt(s, [c], k) {
      if k + 1 <= |s| {
        assert s[k..k + 1][0] == s[k];
      }
    }
  }

  /** A character after `i` replacements: itself if none applied, else ASCII text. */
  lemma {:induction false} TranslateFirstCases(c: char, i: nat)
    requires i <= |Replacements|
    ensures TranslateFirst(c, i) == [c] <==> forall j :: 0 <= j < i ==> Replacements[j].0 != c
    ensures TranslateFirst(c, i) != [c] ==> Ascii(TranslateFirst(c, i))
  {
    ReplacementsShape();
    if i > 0 {
      TranslateFirstCases(c, i - 1);
    }
  }

  /** Replacement `i` acting on one character that the first `i` have handled. */
  lemma {:induction false} CharStep(c: char, i: nat)
    requires i < |Replacements|
    ensures ReplaceAll(TranslateFirst(c, i), [Replacements[i].0], Replacements[i].1) == TranslateFirst(c, i + 1)
  {
    var (key, stand) := Replacements[i];
    ReplacementsShape();
    TranslateFirstCases(c, i);
    TranslateFirstCases(c, i + 1);
    var t := TranslateFirst(c, i);
    if c == key {
      assert t == [c];
      assert ReplaceAll(t, [key], stand) == stand + ReplaceAll([], [key], stand);
    } else if t == [c] {
      assert ReplaceAll(t, [key], stand) == [c] + ReplaceAll([], [key], stand);
    } else {
      AsciiLacks(t, key);
      ReplaceAbsent(t, [key], stand);
    }
  }

  /** No replacement run leaves the text as it was. */
  lemma {:induction false} CleanUpToNone(s: string)
    ensures CleanUpTo(s, 0) == s
    decreases |s|
  {
    if s != [] {
      CleanUpToNone(s[1..]);
      assert s == [s[0]] + s[1..];
    }
  }

  /** One pass of the loop: `str.replace` of replacement `i` on the text the first `i` left. */
  lemma {:induction false} ReplaceStep(s: string, i: nat)
    requires i < |Replacements|
    ensures ReplaceAll(CleanUpTo(s, i), [Replacements[i].0], Replacements[i].1) == CleanUpTo(s, i + 1)
    decreases |s|
  {
    var (key, stand) := Replacements[i];
    if s != [] {
      ReplaceCharAppend(TranslateFirst(s[0], i), CleanUpTo(s[1..], i), key, stand);
      CharStep(s[0], i);
      ReplaceStep(s[1..], i);
    }
  }

  /**
   * `for old, new in replacements.items(): markdown_content =
   * markdown_content.replace(old, new)`.
   */
  method Sanitize(text: string) returns (r: string)
    ensures r == Clean(text)
    ensures forall j :: 0 <= j < |r| ==> !Typographic(r[j])
  {
    r := text;
    CleanUpToNone(text);
    for i := 0 to |Replacements|
      invariant r == CleanUpTo(text, i)
    {
      var (key, stand) := Replacements[i];
      ReplaceStep(text, i);
      r := ReplaceAll(r, [key], stand);
    }
    CleanHasNoTypographic(text);
  }

  /** The sanitised text keeps no typographic character. */
  lemma {:induction false} CleanHasNoTypographic(s: string)
    ensures forall j :: 0 <= j < |Clean(s)| ==> !Typographic(Clean(s)[j])
    decreases |s|
  {
    if s != [] {
      CleanHasNoTypographic(s[1..]);
      var t := TranslateFirst(s[0], |Replacements|);
      TranslateFirstCases(s[0], |Replacements|);
      ReplacementsShape();
      assert Clean(s) == t + Clean(s[1..]);
      forall j | 0 <= j < |Clean(s)| ensures !Typographic(Clean(s)[j]) {
        if j >= |t| {
          assert Clean(s)[j] == Clean(s[1..])[j - |t|];
        } else if t == [s[0]] {
          assert !Typographic(s[0]);
        }
      }
    }
  }

  /** Every other character is left alone: text without typographic characters is unchanged. */
  lemma {:induction false} CleanKeepsPlain(s: string)
    requires forall j :: 0 <= j < |s| ==> !Typographic(s[j])
    ensures Clean(s) == s
    decreases |s|
  {
    if s != [] {
      ReplacementsShape();
      TranslateFirstCases(s[0], |Replacements|);
      CleanKeepsPlain(s[1..]);
      assert s == [s[0]] + s[1..];
    }
  }

  /** Sanitising twice is sanitising once. */
  lemma {:induction false} CleanIdempotent(s: string)
    ensures Clean(Clean(s)) == Clean(s)
  {
    CleanHasNoTypographic(s);
    CleanKeepsPlain(Clean(s));
  }

  /** Sanitising works character by character, so it distributes over concatenation. */
  lemma {:induction false} CleanAppend(a: string, b: string)
    ensures Clean(a + b) == Clean(a) + Clean(b)
    decreases |a|
  {
    if a == [] {
      assert a + b == b;
    } else {
      assert (a + b)[1..] == a[1..] + b;
      CleanAppend(a[1..], b);
    }
  }

  /** Once replacement `i` has run, its character has become its stand-in for good. */
  lemma {:induction false} TranslateKey(i: nat, n: nat)
    requires i < n <= |Replacements|
    ensures TranslateFirst(Replacements[i].0, n) == Replacements[i].1
  {
    ReplacementsShape();
    if n - 1 > i {
      TranslateKey(i, n - 1);
    }
  }

  /** Each typographic character becomes its stand-in: straight quotes, a hyphen, three dots, a space. */
  lemma CleanStandIns()
    ensures forall i :: 0 <= i < |Replacements| ==> Clean([Replacements[i].0]) == Replacements[i].1
  {
    forall i | 0 <= i < |Replacements| ensures Clean([Replacements[i].0]) == Replacements[i].1 {
      TranslateKey(i, |Replacements|);
      assert [Replacements[i].0][1..] == [];
      assert Clean([Replacements[i].0]) == TranslateFirst(Replacements[i].0, |Replacements|) + Clean([]);
    }
  }

  // ------------------------------------------------------------- sections

  /** What `export_pdf` writes for one `##` piece: the introduction, or a titled section. */
  datatype Block = Intro(text: string) | Section(title: string, body: string)

  /** `not section.strip()`. */
  predicate Blank(section: string) {
    Strip(section) == ""
  }

  /** The title test: "Visualizations" as written, or "visualization" in any case. */
  predicate IsVisualization(title: string) {
    Contains(title, "Visualizations") || Contains(Lower(title), "visualization")
  }

  /**
   * `lines = section.strip().split('\n', 1)`: the title is the first line,
   * stripped, and the content the rest, if any. The title is never empty and
   * is one line; both are pieces of the section.
   */
  function TitleAndBody(section: string): (r: (string, string))
    requires !Blank(section)
    ensures r.0 != "" && !Contains(r.0, "\n")
  {
    var lines := SplitOnce(Strip(section), "\n");
    TitleLine(section);
    (Strip(lines[0]), if |lines| > 1 then lines[1] else "")
  }

  lemma {:induction false} TitleLine(section: string)
    requires !Blank(section)
    ensures var title := Strip(SplitOnce(Strip(section), "\n")[0]); title != "" && !Contains(title, "\n")
  {
    var line := SplitOnce(Strip(section), "\n")[0];
    FirstLine(Strip(section));
    var t := StripWithin(line);
    LacksInPiece(line, Strip(line), t, "\n");
  }

  /** Where the title sits in the section. */
  lemma {:induction false} TitleWithin(section: string) returns (k: nat)
    requires !Blank(section)
    ensures OccursAt(section, TitleAndBody(section).0, k)
  {
    var i := StripWithin(section);
    k := StripHeadWithin(section, Strip(section), i, "\n");
  }

  /** Where the content sits in the section. */
  lemma {:induction false} ContentWithin(section: string) returns (m: nat)
    requires !Blank(section)
    ensures OccursAt(section, TitleAndBody(section).1, m)
  {
    var stripped := Strip(section);
    var lines := SplitOnce(stripped, "\n");
    var i := StripWithin(section);
    if |lines| > 1 {
      m := SplitOnceRestWithin(section, stripped, i, "\n");
    } else {
      m := 0;
    }
  }

  /** The first line of a stripped section starts with a non-space, and sits at its start. */
  lemma {:induction false} FirstLine(stripped: string)
    requires stripped != [] && !IsSpace(stripped[0])
    ensures var line := SplitOnce(stripped, "\n")[0];
      line != [] && !IsSpace(line[0]) && OccursAt(stripped, line, 0)
  {
    var line := SplitOnce(stripped, "\n")[0];
    SplitOnceParts(stripped, "\n");
    if line != [] {
      assert line[0] == stripped[0];
    }
  }

  /**
   * What the loop does with piece `i` of the split: skip it when blank;
   * the first piece is the introduction; any other is a section, skipped
   * when its title is a visualization title.
   */
  function BlockOf(i: nat, section: string): (b: Option<Block>)
    ensures b.None? <==> Blank(section) || (i > 0 && IsVisualization(TitleAndBody(section).0))
    ensures b.Some? ==> (b.value.Intro? <==> i == 0)
    ensures b.Some? && b.value.Intro? ==> b.value.text == Strip(section) && b.value.text != ""
    ensures b.Some? && b.value.Section? ==>
      b.value.title == TitleAndBody(section).0 && b.value.body == Strip(TitleAndBody(section).1)
  {
    if Blank(section) then None
    else if i == 0 then Some(Intro(Strip(section)))
    else
      var (title, content) := TitleAndBody(section);
      if IsVisualization(title) then None else Some(Section(title, Strip(content)))
  }

  /** The blocks that a per-piece layout `f` gives for the pieces, in order. */
  function Collect(f: (nat, string) -> Option<Block>, sections: seq<string>): seq<Block>
    decreases |sections|
  {
    if sections == [] then []
    else
      var i := |sections| - 1;
      Collect(f, sections[..i]) + (match f(i, sections[i]) case None => [] case Some(b) => [b])
  }

  /** One more piece adds its block, if any, at the end. */
  lemma {:induction false} CollectStep(f: (nat, string) -> Option<Block>, sections: seq<string>, i: nat)
    requires i < |sections|
    ensures Collect(f, sections[..i + 1]) == Collect(f, sections[..i]) + (match f(i, sections[i]) case None => [] case Some(b) => [b])
  {
    assert sections[..i + 1][..i] == sections[..i];
  }

  /**
   * Block `j` comes from a piece at position `j` or later, that piece gives
   * exactly it, and the pieces before it give exactly the `j` blocks before it.
   */
  lemma {:induction false} CollectOrigin(f: (nat, string) -> Option<Block>, sections: seq<string>, j: nat) returns (i: nat)
    requires j < |Collect(f, sections)|
    ensures j <= i < |sections| && f(i, sections[i]) == Some(Collect(f, sections)[j])
    ensures |Collect(f, sections[..i])| == j
    decreases |sections|
  {
    var n := |sections| - 1;
    var front := Collect(f, sections[..n]);
    if j < |front| {
      i := CollectOrigin(f, sections[..n], j);
      assert sections[..n][i] == sections[i];
      assert sections[..n][..i] == sections[..i];
    } else {
      i := n;
      assert |front| <= n by { CollectLength(f, sections[..n]); }
    }
  }

  /** Blocks keep the order of their pieces: a later block comes from a later piece. */
  lemma {:induction false} CollectOrdered(f: (nat, string) -> Option<Block>, sections: seq<string>, j: nat, k: nat)
    returns (i1: nat, i2: nat)
    requires j < k < |Collect(f, sections)|
    ensures i1 < i2 < |sections|
    ensures f(i1, sections[i1]) == Some(Collect(f, sections)[j])
    ensures f(i2, sections[i2]) == Some(Collect(f, sections)[k])
  {
    i1 := CollectOrigin(f, sections, j);
    i2 := CollectOrigin(f, sections, k);
    if i2 <= i1 {
      CollectMonotone(f, sections, i2, i1);
      assert false;
    }
  }

  /** A longer run of pieces gives at least as many blocks. */
  lemma {:induction false} CollectMonotone(f: (nat, string) -> Option<Block>, sections: seq<string>, a: nat, b: nat)
    requires a <= b <= |sections|
    ensures |Collect(f, sections[..a])| <= |Collect(f, sections[..b])|
    decreases b
  {
    if a < b {
      CollectMonotone(f, sections, a, b - 1);
      CollectStep(f, sections, b - 1);
    }
  }

  lemma {:induction false} CollectLength(f: (nat, string) -> Option<Block>, sections: seq<string>)
    ensures |Collect(f, sections)| <= |sections|
    decreases |sections|
  {
    if sections != [] {
      CollectLength(f, sections[..|sections| - 1]);
    }
  }

  /** Nothing else is dropped: every piece that `f` lays out gives its block. */
  lemma {:induction false} CollectKeeps(f: (nat, string) -> Option<Block>, sections: seq<string>, i: nat)
    requires i < |sections| && f(i, sections[i]).Some?
    ensures f(i, sections[i]).value in Collect(f, sections)
    decreases |sections|
  {
    var n := |sections| - 1;
    if i < n {
      CollectKeeps(f, sections[..n], i);
      assert sections[..n][i] == sections[i];
    }
  }

  /** The blocks of the pieces of a report, in order. */
  function Blocks(sections: seq<string>): seq<Block> {
    Collect(BlockOf, sections)
  }

  /** What `export_pdf` makes of a report: nothing, a failure, or a document. */
  datatype Pdf = NoContent | Unbound | Document(blocks: seq<Block>)

  /**
   * `export_pdf` up to the PDF calls, with `re` usable in every branch:
   * nothing for empty content; otherwise sanitise, split on `##`, and lay
   * out the pieces.
   */
  method Export(markdown: string) returns (doc: Pdf)
    ensures doc.NoContent? <==> markdown == ""
    ensures doc != NoContent ==> doc == Document(Blocks(Split(Clean(markdown), "##")))
  {
    if markdown == "" {
      return NoContent;
    }
    var text := Sanitize(markdown);
    var blocks := LayOut(Split(text, "##"));
    return Document(blocks);
  }

  /** The loop of `export_pdf` over the pieces, each laid out in turn. */
  method LayOut(sections: seq<string>) returns (blocks: seq<Block>)
    ensures blocks == Blocks(sections)
  {
    blocks := [];
    for i := 0 to |sections|
      invariant blocks == Blocks(sections[..i])
    {
      CollectStep(BlockOf, sections, i);
      match BlockOf(i, sections[i])
      case None =>
      case Some(b) => blocks := blocks + [b];
    }
    assert sections[..|sections|] == sections;
  }

  /**
   * The reports on which `export_pdf` as written raises: non-empty ones whose
   * first piece is blank while a later piece is rendered.
   */
  predicate ExportRaises(markdown: string) {
    var sections := Split(Clean(markdown), "##");
    markdown != "" && Blank(sections[0]) && Blocks(sections) != []
  }

  /** `export_pdf` as written, with the loop below. */
  method ExportAsWritten(markdown: string) returns (doc: Pdf)
    ensures doc.NoContent? <==> markdown == ""
    ensures doc.Unbound? <==> ExportRaises(markdown)
    ensures doc.Document? ==> doc == Document(Blocks(Split(Clean(markdown), "##")))
  {
    if markdown == "" {
      return NoContent;
    }
    var text := Sanitize(markdown);
    doc := LayOutAsWritten(Split(text, "##"));
  }

  /**
   * The loop of `export_pdf` as written: `re` is imported inside the
   * introduction branch only, which makes it a local name of the function,
   * bound once the first piece has been laid out as the introduction. A
   * section reached before that fails on `re.sub` with an unbound local,
   * and no document is made.
   */
  method LayOutAsWritten(sections: seq<string>) returns (doc: Pdf)
    requires sections != []
    ensures !doc.NoContent?
    ensures doc.Unbound? <==> Blank(sections[0]) && Blocks(sections) != []
    ensures doc.Document? ==> doc.blocks == Blocks(sections)
  {
    var blocks := [];
    var imported := false;
    for i := 0 to |sections|
      invariant blocks == Blocks(sections[..i])
      invariant imported <==> 0 < i && !Blank(sections[0])
      invariant !imported ==> blocks == []
    {
      CollectStep(BlockOf, sections, i);
      match BlockOf(i, sections[i])
      case None =>
      case Some(b) =>
        if i == 0 {
          imported := true;
        } else if !imported {
          BlocksGrow(sections, i + 1);
          return Unbound;
        }
        blocks := blocks + [b];
    }
    assert sections[..|sections|] == sections;
    return Document(blocks);
  }

  /** Blocks only accumulate: once a prefix of the pieces gives a block, the whole does. */
  lemma {:induction false} BlocksGrow(sections: seq<string>, i: nat)
    requires i <= |sections|
    ensures Blocks(sections[..i]) != [] ==> Blocks(sections) != []
  {
    CollectGrow(BlockOf, sections, i);
  }

  lemma {:induction false} CollectGrow(f: (nat, string) -> Option<Block>, sections: seq<string>, i: nat)
    requires i <= |sections|
    ensures Collect(f, sections[..i]) != [] ==> Collect(f, sections) != []
    decreases |sections| - i
  {
    if i < |sections| {
      CollectStep(f, sections, i);
      CollectGrow(f, sections, i + 1);
    } else {
      assert sections[..i] == sections;
    }
  }

  /**
   * What a rendered report looks like: the introduction, if any, comes
   * first; every section title is a non-empty single line that is not a
   * visualization title; and no text holds the `##` the split cut on.
   */
  lemma {:induction false} LayoutShape(markdown: string, j: nat)
    requires var blocks := Blocks(Split(Clean(markdown), "##")); j < |blocks|
    ensures var b := Blocks(Split(Clean(markdown), "##"))[j];
      && (b.Intro? ==> j == 0 && b.text != "" && !Contains(b.text, "##"))
      && (b.Section? ==>
            && b.title != "" && !Contains(b.title, "\n")
            && !IsVisualization(b.title)
            && !Contains(b.title, "##") && !Contains(b.body, "##"))
  {
    var sections := Split(Clean(markdown), "##");
    var b := Blocks(sections)[j];
    var i := CollectOrigin(BlockOf, sections, j);
    var section := sections[i];
    assert BlockOf(i, section) == Some(b);
    if b.Intro? {
      var k := StripWithin(section);
      LacksInPiece(section, b.text, k, "##");
    } else {
      var (title, content) := TitleAndBody(section);
      var k := TitleWithin(section);
      var m := ContentWithin(section);
      LacksInPiece(section, title, k, "##");
      LacksInPiece(section, content, m, "##");
      var q := StripWithin(content);
      LacksInPiece(content, b.body, q, "##");
    }
  }

  /** Nothing else is dropped: every piece of the report that is not skipped gives its block. */
  lemma {:induction false} SectionsRendered(markdown: string, i: nat)
    requires var sections := Split(Clean(markdown), "##"); i < |sections| && BlockOf(i, sections[i]).Some?
    ensures var sections := Split(Clean(markdown), "##"); BlockOf(i, sections[i]).value in Blocks(sections)
  {
    CollectKeeps(BlockOf, Split(Clean(markdown), "##"), i);
  }

  /**
   * A report that opens with a `##` heading: the piece before it is blank,
   * so the introduction branch never runs, yet the section after it is laid
   * out, which is where the code as written fails on `re`.
   */
  lemma OpeningHeadingFails()
    ensures var sections := Split(Clean("##A"), "##");
      Blank(sections[0]) && Blocks(sections) != []
  {
    var sections := Split(Clean("##A"), "##");
    SplitExample();
    BlankExample();
    SectionExampleFacts();
    SecondRenders(sections);
  }

  /** Two pieces, the first blank and the second a section that renders: the layout is not empty. */
  lemma {:induction false} SecondRenders(sections: seq<string>)
    requires |sections| == 2 && Blank(sections[0])
    requires !Blank(sections[1]) && !IsVisualization(TitleAndBody(sections[1]).0)
    ensures Blocks(sections) != []
  {
    var b := BlockOf(1, sections[1]);
    CollectSecond(BlockOf, sections, b.value);
  }

  lemma SplitExample()
    ensures Split(Clean("##A"), "##") == ["", "A"]
  {
    CleanKeepsPlain("##A");
    assert IndexOf("##A", "##") == Some(0);
    assert "##A"[2..] == "A";
    assert IndexOf("A", "##") == None;
  }

  lemma BlankExample()
    ensures Blank("")
  {
    assert Strip("") == "";
  }

  lemma SectionExampleFacts()
    ensures !Blank("A") && TitleAndBody("A") == ("A", "") && !IsVisualization("A")
  {
    TitleExample();
    NotVisualizationExample();
  }

  lemma TitleExample()
    ensures !Blank("A") && TitleAndBody("A") == ("A", "")
  {
    assert Strip("A") == "A";
    assert IndexOf("A", "\n") == None;
  }

  lemma NotVisualizationExample()
    ensures !IsVisualization("A")
  {
    assert !Contains("A", "Visualizations");
    assert Lower("A") == "a";
    assert !Contains("a", "visualization");
  }

  /** Two pieces of which only the second gives a block. */
  lemma {:induction false} CollectSecond(f: (nat, string) -> Option<Block>, sections: seq<string>, b: Block)
    requires |sections| == 2 && f(0, sections[0]).None? && f(1, sections[1]) == Some(b)
    ensures Collect(f, sections) == [b]
  {
    CollectStep(f, sections, 0);
    CollectStep(f, sections, 1);
    assert sections[..0] == [] && sections[..2] == sections;
  }
}
