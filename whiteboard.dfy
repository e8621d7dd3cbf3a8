/**
 * The static whiteboard (components/Whiteboard.tsx): its Markdown export and
 * the file-name stem the PNG, PDF and Markdown exports share.
 */
module Whiteboard {
  import opened JsText
  import opened Types

  /** The Markdown one section contributes: heading, explanation and the optional image line; no separator. */
  function SectionBlock(s: WhiteboardSection): string {
    "## " + s.heading + "\n\n" + s.explanation + "\n\n" + ImageLine(s.heading, s.imageUrl)
  }

  /**
   * A section's block opens with its heading line and its explanation and ends
   * with the image line; with no image it is the opening alone, so no
   * separator follows a section.
   */
  lemma SectionBlockParts(s: WhiteboardSection)
    ensures StartsWith(SectionBlock(s), "## " + s.heading + "\n\n" + s.explanation + "\n\n")
    ensures EndsWith(SectionBlock(s), ImageLine(s.heading, s.imageUrl))
    ensures IsTruthy(s.imageUrl) ==>
      SectionBlock(s) == "## " + s.heading + "\n\n" + s.explanation + "\n\n"
                         + "![" + s.heading + "](" + s.imageUrl.value + ")\n\n"
    ensures !IsTruthy(s.imageUrl) ==>
      SectionBlock(s) == "## " + s.heading + "\n\n" + s.explanation + "\n\n"
  {
    var opening := "## " + s.heading + "\n\n" + s.explanation + "\n\n";
    assert SectionBlock(s) == opening + ImageLine(s.heading, s.imageUrl);
    assert SectionBlock(s)[..|opening|] == opening;
  }

  /** The blocks of `sections`, in order. */
  function SectionBlocks(sections: seq<WhiteboardSection>): string {
    if sections == [] then "" else SectionBlock(sections[0]) + SectionBlocks(sections[1..])
  }

  /** The title line and the introduction that open the export. */
  function Preamble(c: WhiteboardContent): string {
    "# " + c.title + "\n\n" + c.introduction + "\n\n"
  }

  /** The exported document: the preamble, then every section's block. */
  function StaticMarkdown(c: WhiteboardContent): string {
    Preamble(c) + SectionBlocks(c.sections)
  }

  /** The export opens with the title line and the introduction; without sections that is all of it. */
  lemma StaticMarkdownOpening(c: WhiteboardContent)
    ensures StartsWith(StaticMarkdown(c), "# " + c.title + "\n\n" + c.introduction + "\n\n")
    ensures c.sections == [] ==> StaticMarkdown(c) == Preamble(c)
  {
    assert StaticMarkdown(c)[..|Preamble(c)|] == Preamble(c);
  }

  /** The blocks of two runs of sections are the blocks of each, one after the other. */
  lemma {:induction false} SectionBlocksAppend(a: seq<WhiteboardSection>, b: seq<WhiteboardSection>)
    ensures SectionBlocks(a + b) == SectionBlocks(a) + SectionBlocks(b)
  {
    if a != [] {
      assert (a + b)[1..] == a[1..] + b;
      SectionBlocksAppend(a[1..], b);
    } else {
      assert a + b == b;
    }
  }

  /** The export is a left fold: one more section adds exactly its block at the end. */
  lemma StaticMarkdownSnoc(c: WhiteboardContent, s: WhiteboardSection)
    ensures StaticMarkdown(c.(sections := c.sections + [s])) == StaticMarkdown(c) + SectionBlock(s)
  {
    var longer := c.(sections := c.sections + [s]);
    calc {
      StaticMarkdown(longer);
      Preamble(c) + SectionBlocks(c.sections + [s]);
      { SectionBlocksAppend(c.sections, [s]); }
      Preamble(c) + (SectionBlocks(c.sections) + SectionBlocks([s]));
      { assert SectionBlocks([s]) == SectionBlock(s) + SectionBlocks([]); }
      Preamble(c) + (SectionBlocks(c.sections) + SectionBlock(s));
    }
  }

  /** Section `i`'s block comes right after the blocks of the sections before it. */
  lemma StaticMarkdownInOrder(c: WhiteboardContent, i: nat)
    requires i < |c.sections|
    ensures StaticMarkdown(c) ==
      Preamble(c) + (SectionBlocks(c.sections[..i]) + (SectionBlock(c.sections[i]) + SectionBlocks(c.sections[i + 1..])))
  {
    SectionBlocksAt(c.sections, i);
  }

  /** The blocks split around section `i`. */
  lemma SectionBlocksAt(sections: seq<WhiteboardSection>, i: nat)
    requires i < |sections|
    ensures SectionBlocks(sections) ==
      SectionBlocks(sections[..i]) + (SectionBlock(sections[i]) + SectionBlocks(sections[i + 1..]))
  {
    assert sections == sections[..i] + sections[i..];
    assert sections[i..][1..] == sections[i + 1..];
    SectionBlocksAppend(sections[..i], sections[i..]);
  }

  /** Appending a section's pieces one `+=` at a time appends its block. */
  lemma AppendSection(before: string, s: WhiteboardSection)
    ensures IsTruthy(s.imageUrl) ==>
      before + "## " + s.heading + "\n\n" + s.explanation + "\n\n"
      + "![" + s.heading + "](" + s.imageUrl.value + ")\n\n" == before + SectionBlock(s)
    ensures !IsTruthy(s.imageUrl) ==>
      before + "## " + s.heading + "\n\n" + s.explanation + "\n\n" == before + SectionBlock(s)
  {
  }

  /** The export handler: the title line, the introduction, then each section's pieces in turn. */
  method ExportStaticMarkdown(content: WhiteboardContent) returns (md: string)
    ensures md == StaticMarkdown(content)
  {
    md := "# " + content.title + "\n\n";
    md := md + content.introduction + "\n\n";
    var sections := content.sections;
    for i := 0 to |sections|
      invariant md == StaticMarkdown(content.(sections := sections[..i]))
    {
      var section := sections[i];
      ghost var before := md;
      md := md + "## " + section.heading + "\n\n";
      md := md + section.explanation + "\n\n";
      if IsTruthy(section.imageUrl) {
        md := md + "![" + section.heading + "](" + section.imageUrl.value + ")\n\n";
      }
      AppendSection(before, section);
      StaticMarkdownSnoc(content.(sections := sections[..i]), section);
      assert sections[..i + 1] == sections[..i] + [section];
    }
    assert sections[..|sections|] == sections;
  }

  /**
   * `s.replace(/\s+/g, '_')`: every maximal run of white space becomes one
   * underscore, every other character is kept.
   */
  function CollapseWhitespace(s: string): (r: string)
    ensures HasNoWhitespace(r)
    decreases |s|
  {
    if s == [] then []
    else if IsWhitespace(s[0]) then "_" + CollapseWhitespace(TrimStart(s))
    else [s[0]] + CollapseWhitespace(s[1..])
  }

  /** A string without white space is left as it is. */
  lemma {:induction false} CollapseWithoutWhitespace(s: string)
    requires HasNoWhitespace(s)
    ensures CollapseWhitespace(s) == s
  {
    if s != [] {
      CollapseWithoutWhitespace(s[1..]);
    }
  }

  /**
   * A word, then a run of white space, then text that does not start with
   * white space: the word is kept, the whole run becomes one underscore.
   */
  lemma {:induction false} CollapseRun(word: string, run: string, rest: string)
    requires HasNoWhitespace(word)
    requires run != [] && IsBlank(run)
    requires rest == [] || !IsWhitespace(rest[0])
    ensures CollapseWhitespace(word + run + rest) == word + "_" + CollapseWhitespace(rest)
  {
    if word == [] {
      assert word + run + rest == run + rest;
      var k := LeadingWhitespace(run + rest);
      assert (run + rest)[|run|..] == rest;
      assert k == |run| by {
        assert forall i :: 0 <= i < |run| ==> (run + rest)[i] == run[i];
      }
      assert TrimStart(run + rest) == rest;
    } else {
      assert (word + run + rest)[1..] == word[1..] + run + rest;
      CollapseRun(word[1..], run, rest);
    }
  }

  /** The file-name stem of every export: the title with white-space runs as `_`, lower-cased. */
  function FileStem(title: string): (stem: string)
    ensures HasNoWhitespace(stem)
  {
    Lower(CollapseWhitespace(title))
  }

  /** Deriving a stem from a stem changes nothing. */
  lemma FileStemIdempotent(title: string)
    ensures FileStem(FileStem(title)) == FileStem(title)
  {
    var stem := FileStem(title);
    CollapseWithoutWhitespace(stem);
    LowerIdempotent(CollapseWhitespace(title));
  }

  /** The downloaded file's name: the stem, a dot and the extension. */
  function ExportFileName(title: string, extension: string): (name: string)
    ensures StartsWith(name, FileStem(title))
    ensures EndsWith(name, "." + extension)
    ensures |name| == |FileStem(title)| + 1 + |extension|
    ensures HasNoWhitespace(extension) ==> HasNoWhitespace(name)
  {
    var stem := FileStem(title);
    if HasNoWhitespace(extension) then
      NoWhitespaceConcat(stem, ".");
      NoWhitespaceConcat(stem + ".", extension);
      assert (stem + "." + extension)[..|stem|] == stem;
      stem + "." + extension
    else
      assert (stem + "." + extension)[..|stem|] == stem;
      stem + "." + extension
  }
}
