/** The report widget's `formatReport`: the generated Markdown-ish text is
    split into lines and every line becomes a heading, a list item or a
    paragraph, decided by its first characters. */
module ReportFormat {
  import opened Text

  /** The element rendered for one line (`<h3>`, `<li>` or `<p>`). */
  datatype Block = Heading(text: string) | ListItem(text: string) | Paragraph(text: string)

  const HEADING_MARK: string := "###"
  const LIST_MARK: string := "-"

  /** One line's element. The heading test comes first. A heading drops the
      first `###` (which is the line's prefix) and trims. A list item drops
      the leading `-` and trims. Anything else is kept verbatim. */
  function FormatLine(line: string): (b: Block)
    ensures b.Heading? <==> StartsWith(line, HEADING_MARK)
    ensures b.Heading? ==> b.text == Trim(line[|HEADING_MARK|..])
    ensures b.ListItem? <==> StartsWith(line, LIST_MARK) && !StartsWith(line, HEADING_MARK)
    ensures b.ListItem? ==> b.text == Trim(line[|LIST_MARK|..])
    ensures b.Paragraph? <==> !StartsWith(line, HEADING_MARK) && !StartsWith(line, LIST_MARK)
    ensures b.Paragraph? ==> b.text == line
    ensures !b.Paragraph? ==> IsTrimmed(b.text)
  {
    if StartsWith(line, HEADING_MARK) then
      ReplacePrefix(line, HEADING_MARK);
      Heading(Trim(ReplaceFirst(line, HEADING_MARK, "")))
    else if StartsWith(line, LIST_MARK) then
      ListItem(Trim(SubstringFrom(line, |LIST_MARK|)))
    else
      Paragraph(line)
  }

  /** The lines of the report text, separated by line feeds. */
  function Lines(text: string): seq<string>
  {
    Split(text, '\n')
  }

  /** One element per line, in line order; the element count is one more
      than the number of line feeds. */
  function FormatReport(text: string): (r: seq<Block>)
    ensures |r| == Count(text, '\n') + 1
    ensures forall i :: 0 <= i < |r| ==> r[i] == FormatLine(Lines(text)[i])
  {
    var lines := Lines(text);
    seq(|lines|, i requires 0 <= i < |lines| => FormatLine(lines[i]))
  }

  /** The empty report renders as one empty paragraph. */
  lemma FormatEmpty()
    ensures FormatReport("") == [Paragraph("")]
  {
  }

  /** Formatting is line-local: joining two texts with a line feed joins
      their element lists. */
  lemma FormatAroundNewline(a: string, b: string)
    ensures FormatReport(a + "\n" + b) == FormatReport(a) + FormatReport(b)
  {
    SplitAround(a, b, '\n');
  }

  /** The texts of the elements. */
  function Texts(blocks: seq<Block>): (r: seq<string>)
    ensures |r| == |blocks|
  {
    seq(|blocks|, i requires 0 <= i < |blocks| => blocks[i].text)
  }

  /** A text none of whose lines starts with `###` or `-` renders as
      paragraphs only, and their texts joined by line feeds are the text
      itself. */
  lemma PlainTextRoundTrip(text: string)
    requires forall i :: 0 <= i < |Lines(text)| ==>
               !StartsWith(Lines(text)[i], HEADING_MARK) && !StartsWith(Lines(text)[i], LIST_MARK)
    ensures forall i :: 0 <= i < |FormatReport(text)| ==> FormatReport(text)[i].Paragraph?
    ensures Join(Texts(FormatReport(text)), '\n') == text
  {
    assert Texts(FormatReport(text)) == Lines(text);
    JoinSplit(text, '\n');
  }
}
