/** The rich-text document the FastAPI revision writes into the issue's
    generated-test-cases field: a `doc` of version 1 whose content is one
    `paragraph` per non-blank line, each holding a single `text` run. */
module Adf {
  import opened PyText
  import opened Segmentation

  datatype Inline = Text(text: string)
  datatype Block = Paragraph(content: seq<Inline>)
  datatype Doc = Doc(version: nat, content: seq<Block>)

  /** The custom field the document is written to. */
  const GeneratedTestCasesField: string := "customfield_10169"

  function ParagraphOf(line: string): Block
  {
    Paragraph([Text(line)])
  }

  /** The text a block shows: its runs one after another. */
  function RunsText(runs: seq<Inline>): string
  {
    if |runs| == 0 then [] else runs[0].text + RunsText(runs[1..])
  }

  /** The text of every paragraph of a document, in order. */
  function ParagraphTexts(doc: Doc): (texts: seq<string>)
    ensures |texts| == |doc.content|
  {
    seq(|doc.content|, i requires 0 <= i < |doc.content| => RunsText(doc.content[i].content))
  }

  /** The body of the conversion loop: for each piece, a paragraph of its
      stripped text unless that is empty. */
  function ParagraphsOf(pieces: seq<string>): (blocks: seq<Block>)
    ensures |blocks| == |Clean(pieces)|
    ensures forall i :: 0 <= i < |blocks| ==> blocks[i] == ParagraphOf(Clean(pieces)[i])
  {
    if |pieces| == 0 then []
    else
      var line := Strip(pieces[0]);
      (if line == [] then [] else [ParagraphOf(line)]) + ParagraphsOf(pieces[1..])
  }

  /** Converts the completion into the field's document: strip the text,
      split it on newlines, keep one paragraph per non-blank stripped piece.
      The paragraphs are exactly the segments of the text, in order. */
  function ToAdf(text: string): (doc: Doc)
    ensures doc.version == 1
    ensures |doc.content| == |NonBlankLines(text)|
    ensures forall i :: 0 <= i < |doc.content| ==>
      doc.content[i] == ParagraphOf(NonBlankLines(text)[i])
  {
    NonBlankLinesIgnoresOuterWhitespace(text);
    Doc(1, ParagraphsOf(Split(Strip(text), Newline)))
  }

  /** Reading the paragraphs back gives the segments; so no paragraph is
      empty, none has whitespace at its ends and none spans two lines. */
  lemma ToAdfParagraphTexts(text: string)
    ensures ParagraphTexts(ToAdf(text)) == NonBlankLines(text)
    ensures forall i :: 0 <= i < |ParagraphTexts(ToAdf(text))| ==>
      var t := ParagraphTexts(ToAdf(text))[i];
      t != [] && IsStripped(t) && Newline !in t
  {
    var doc := ToAdf(text);
    var lines := NonBlankLines(text);
    forall i | 0 <= i < |lines| ensures ParagraphTexts(doc)[i] == lines[i] {
      assert doc.content[i].content == [Text(lines[i])];
      assert RunsText([Text(lines[i])]) == lines[i] + RunsText([]);
    }
  }

  /** The conversion is idempotent: writing the paragraphs out one per line
      and converting again gives the same document. */
  lemma ToAdfIdempotent(text: string)
    ensures ToAdf(Join(ParagraphTexts(ToAdf(text)), Newline)) == ToAdf(text)
  {
    ToAdfParagraphTexts(text);
    NonBlankLinesIdempotent(text);
    var d1 := ToAdf(Join(NonBlankLines(text), Newline));
    var d2 := ToAdf(text);
    assert d1.content == d2.content;
  }
}
