/** The course generator page: its form, and the document structures its Word
    and PowerPoint exports build from the generated lesson text. The lesson
    text separates lines with `<br />` and marks headings with `**`. */
module CourseExport {
  import opened Wrappers
  import opened JsBuiltins

  // ----- The form -----

  /** The page's schema: a subject of at least 10 UTF-16 units. */
  predicate ValidPrompt(prompt: string) {
    Utf16Length(prompt) >= 10
  }

  /** The untouched form (an empty subject) is refused; a subject of ten characters,
      each one UTF-16 unit, is accepted. */
  lemma PromptExamples()
    ensures !ValidPrompt("")
    ensures ValidPrompt("La Rivière")
  {
    var s := "La Rivière";
    assert Utf16Length(s) == 10 by {
      assert forall i | 0 <= i < |s| :: s[i] as int <= 0xFFFF;
      Utf16LengthBmp(s);
    }
  }

  // ----- Word export -----

  const LineBreak: string := "<br />"

  /** A Word paragraph: a bold second-level heading or a plain run of text. */
  datatype Paragraph = Heading(text: string) | Plain(text: string)

  predicate IsHeadingLine(line: string) {
    StartsWith(line, "**") && EndsWith(line, "**")
  }

  /** The paragraph for one line: a line wrapped in `**` becomes a heading of
      `line.slice(2, -2)`; any other line is kept verbatim. */
  function ParagraphOf(line: string): (p: Paragraph)
    ensures p.Heading? <==> IsHeadingLine(line)
    ensures p.Plain? ==> p.text == line
    ensures p.Heading? && |line| >= 4 ==> line == "**" + p.text + "**"
    ensures p.Heading? && |line| < 4 ==> p.text == []
  {
    if IsHeadingLine(line) then
      assert |line| >= 4 ==> line == line[..2] + line[2..|line| - 2] + line[|line| - 2..];
      Heading(Slice(line, 2, -2))
    else Plain(line)
  }

  function ParagraphsOf(lines: seq<string>): (ps: seq<Paragraph>)
    ensures |ps| == |lines|
    ensures forall i {:trigger ps[i]} | 0 <= i < |lines| :: ps[i] == ParagraphOf(lines[i])
  {
    if lines == [] then [] else [ParagraphOf(lines[0])] + ParagraphsOf(lines[1..])
  }

  /** `handleExportDocx`: nothing for an empty lesson; otherwise one paragraph
      per `<br />`-separated line, in order. */
  function DocxParagraphs(content: string): (d: Option<seq<Paragraph>>)
    ensures d.None? <==> content == []
  {
    if content == [] then None else Some(ParagraphsOf(Split(content, LineBreak)))
  }

  lemma LineBreakSelfDisjoint()
    ensures SelfDisjoint(LineBreak)
  {
    forall k | 0 < k < |LineBreak| ensures LineBreak[k..] != LineBreak[..|LineBreak| - k] {
      assert LineBreak[k..][|LineBreak| - k - 1] == '>';
      assert LineBreak[..|LineBreak| - k][|LineBreak| - k - 1] != '>';
    }
  }

  /** There is one paragraph per line: one more than the number of `<br />`
      in the lesson, each built from its line. */
  lemma DocxParagraphCount(content: string)
    requires content != []
    ensures var ps := DocxParagraphs(content).value;
      && |ps| == 1 + CountOccurrences(content, LineBreak)
      && forall i | 0 <= i < |ps| :: ps[i] == ParagraphOf(Split(content, LineBreak)[i])
  {
    LineBreakSelfDisjoint();
    SplitCount(content, LineBreak);
  }

  /** Lines of two or three asterisks become empty headings. */
  lemma ShortHeadings()
    ensures ParagraphOf("**") == Heading("")
    ensures ParagraphOf("***") == Heading("")
    ensures ParagraphOf("**Intro**") == Heading("Intro")
  {
    assert IsHeadingLine("**") by { assert "**"[..2] == "**"; }
    assert IsHeadingLine("***") by { assert "***"[..2] == "**" && "***"[1..] == "**"; }
    var h := "**Intro**";
    assert IsHeadingLine(h) by { assert h[..2] == "**" && h[7..] == "**"; }
    assert h[2..7] == "Intro";
  }

  /** How a paragraph is written back as lesson text. */
  function Render(p: Paragraph): string {
    match p
    case Heading(t) => "**" + t + "**"
    case Plain(t) => t
  }

  function RenderAll(ps: seq<Paragraph>): (r: seq<string>)
    ensures |r| == |ps|
  {
    if ps == [] then [] else [Render(ps[0])] + RenderAll(ps[1..])
  }

  /** The Word paragraphs lose nothing of the lesson except the text of a line
      made of two or three asterisks: rendering them back and joining with
      `<br />` restores the lesson. */
  lemma DocxRoundTrip(content: string)
    requires content != []
    requires forall i | 0 <= i < |Split(content, LineBreak)| ::
      Split(content, LineBreak)[i] != "**" && Split(content, LineBreak)[i] != "***"
    ensures Join(RenderAll(DocxParagraphs(content).value), LineBreak) == content
  {
    var lines := Split(content, LineBreak);
    RenderLines(lines);
    JoinSplit(content, LineBreak);
  }

  lemma {:induction false} RenderLines(lines: seq<string>)
    requires forall i | 0 <= i < |lines| :: lines[i] != "**" && lines[i] != "***"
    ensures RenderAll(ParagraphsOf(lines)) == lines
  {
    if lines != [] {
      RenderLines(lines[1..]);
      var l := lines[0];
      var p := ParagraphOf(l);
      assert Render(p) == l;
      assert ParagraphsOf(lines)[1..] == ParagraphsOf(lines[1..]);
    }
  }

  // ----- PowerPoint export -----

  /** A slide: its title and the further text boxes added to it. */
  datatype Slide = Slide(title: string, texts: seq<string>)

  function TrimAll(parts: seq<string>): (r: seq<string>)
    ensures |r| == |parts|
    ensures forall i {:trigger r[i]} | 0 <= i < |parts| :: r[i] == Trim(parts[i])
  {
    if parts == [] then [] else [Trim(parts[0])] + TrimAll(parts[1..])
  }

  function NonEmpty(parts: seq<string>): (r: seq<string>)
    ensures |r| <= |parts|
    ensures forall i | 0 <= i < |r| :: r[i] != []
  {
    if parts == [] then []
    else if parts[0] == [] then NonEmpty(parts[1..])
    else [parts[0]] + NonEmpty(parts[1..])
  }

  /** The filter keeps exactly the non-empty parts, in their order. */
  lemma {:induction false} NonEmptyMembers(parts: seq<string>)
    ensures forall s :: s in NonEmpty(parts) <==> s in parts && s != []
  {
    if parts != [] {
      NonEmptyMembers(parts[1..]);
      assert parts == [parts[0]] + parts[1..];
    }
  }

  /** The lesson split at `**`, each piece trimmed, empty pieces dropped. */
  function Sections(content: string): seq<string> {
    NonEmpty(TrimAll(Split(content, "**")))
  }

  /** A section: non-empty, neither starting nor ending with white space, and
      the trimmed text of one of the pieces. */
  predicate IsSectionOf(s: string, parts: seq<string>) {
    && s != []
    && !IsJsSpace(s[0]) && !IsJsSpace(s[|s| - 1])
    && exists k | 0 <= k < |parts| :: s == Trim(parts[k])
  }

  /** Every section is a trimmed piece between `**` marks, non-empty and
      without white space at either end. */
  lemma SectionsFacts(content: string)
    ensures forall i | 0 <= i < |Sections(content)| :: IsSectionOf(Sections(content)[i], Split(content, "**"))
  {
    var parts := Split(content, "**");
    NonEmptyMembers(TrimAll(parts));
    forall i | 0 <= i < |Sections(content)| ensures IsSectionOf(Sections(content)[i], parts) {
      TrimmedPiece(parts, Sections(content)[i]);
    }
  }

  lemma TrimmedPiece(parts: seq<string>, s: string)
    requires s in TrimAll(parts) && s != []
    ensures IsSectionOf(s, parts)
  {
    var trimmed := TrimAll(parts);
    var k :| 0 <= k < |trimmed| && trimmed[k] == s;
    TrimFacts(parts[k]);
  }

  const DefaultTitle: string := "Introduction"

  /** The title of the first slide: the first section, or "Introduction". */
  function FirstTitle(sections: seq<string>): string {
    if sections != [] then sections[0] else DefaultTitle
  }

  /** The sections after the first one. */
  function LaterSections(sections: seq<string>): seq<string> {
    if sections != [] then sections[1..] else []
  }

  /** The deck for a first title and the later sections: a title slide, then
      one slide per pair of sections, titled by the first of the pair and
      holding the second (with `<br />` rewritten) when there is one. */
  ghost predicate IsDeck(slides: seq<Slide>, title: string, rest: seq<string>, breaks: string -> string) {
    && |slides| == 1 + (|rest| + 1) / 2
    && slides[0] == Slide(title, [])
    && forall j | 0 <= j < (|rest| + 1) / 2 :: SlideHolds(slides, rest, j, breaks)
  }

  /** Slide `j + 1` is titled by section `2 j` and holds section `2 j + 1`. */
  ghost predicate SlideHolds(slides: seq<Slide>, rest: seq<string>, j: nat, breaks: string -> string)
    requires j + 1 < |slides| && 2 * j < |rest|
  {
    slides[j + 1] == Slide(rest[2 * j], if 2 * j + 1 < |rest| then [breaks(rest[2 * j + 1])] else [])
  }

  /** `handleExportPptx`: nothing for an empty lesson; otherwise a title slide
      and, for the later sections in turn, a new slide at each even position
      and a text box on the current slide at each odd one. The rewriting of
      `<br />` inside a text box is the parameter `breaks`. */
  method ExportPptx(content: string, breaks: string -> string) returns (deck: Option<seq<Slide>>)
    ensures content == [] <==> deck.None?
    ensures deck.Some? ==>
      IsDeck(deck.value, FirstTitle(Sections(content)), LaterSections(Sections(content)), breaks)
  {
    if content == [] {
      return None;
    }
    var sections := Sections(content);
    var currentTitle := DefaultTitle;
    if |sections| > 0 {
      currentTitle := if sections[0] != [] then sections[0] else DefaultTitle;
      sections := sections[1..];
    }
    ghost var rest := LaterSections(Sections(content));
    assert sections == rest;
    var slides := [Slide(currentTitle, [])];
    for i := 0 to |sections|
      invariant IsDeck(slides, currentTitle, sections[..i], breaks)
    {
      if i % 2 == 0 {
        slides := slides + [Slide(sections[i], [])];
        DeckOpen(slides, currentTitle, sections, i, breaks);
      } else {
        var last := slides[|slides| - 1];
        ghost var before := slides;
        slides := slides[..|slides| - 1] + [last.(texts := last.texts + [breaks(sections[i])])];
        DeckFill(before, slides, currentTitle, sections, i, breaks);
      }
    }
    assert sections[..|sections|] == sections;
    deck := Some(slides);
  }

  lemma DeckOpen(slides: seq<Slide>, title: string, sections: seq<string>, i: nat, breaks: string -> string)
    requires i < |sections| && i % 2 == 0
    requires |slides| >= 1 && slides[|slides| - 1] == Slide(sections[i], [])
    requires IsDeck(slides[..|slides| - 1], title, sections[..i], breaks)
    ensures IsDeck(slides, title, sections[..i + 1], breaks)
  {
    var pre := sections[..i];
    var post := sections[..i + 1];
    var m := i / 2;
    assert (|post| + 1) / 2 == m + 1 && (|pre| + 1) / 2 == m;
    forall j | 0 <= j < m + 1 ensures SlideHolds(slides, post, j, breaks) {
      if j < m {
        assert slides[..|slides| - 1][j + 1] == slides[j + 1];
        assert SlideHolds(slides[..|slides| - 1], pre, j, breaks);
        assert pre[2 * j] == post[2 * j];
        assert 2 * j + 1 < |pre| && pre[2 * j + 1] == post[2 * j + 1];
      } else {
        assert 2 * j == i;
      }
    }
  }

  lemma DeckFill(before: seq<Slide>, slides: seq<Slide>, title: string, sections: seq<string>, i: nat,
                 breaks: string -> string)
    requires i < |sections| && i % 2 == 1
    requires IsDeck(before, title, sections[..i], breaks)
    requires var last := before[|before| - 1];
      slides == before[..|before| - 1] + [last.(texts := last.texts + [breaks(sections[i])])]
    ensures IsDeck(slides, title, sections[..i + 1], breaks)
  {
    var pre := sections[..i];
    var post := sections[..i + 1];
    var m := i / 2;
    assert (|post| + 1) / 2 == m + 1 && (|pre| + 1) / 2 == m + 1;
    assert |slides| == |before|;
    forall j | 0 <= j < m + 1 ensures SlideHolds(slides, post, j, breaks) {
      assert SlideHolds(before, pre, j, breaks);
      assert pre[2 * j] == post[2 * j];
      if j < m {
        assert slides[j + 1] == before[j + 1];
        assert 2 * j + 1 < |pre| && pre[2 * j + 1] == post[2 * j + 1];
      } else {
        assert 2 * j + 1 == i;
      }
    }
  }

  /** A lesson whose sections are all blank gives one "Introduction" slide. */
  lemma BlankSectionsDeck(slides: seq<Slide>, breaks: string -> string)
    requires IsDeck(slides, FirstTitle([]), LaterSections([]), breaks)
    ensures slides == [Slide(DefaultTitle, [])]
  {
  }
}
