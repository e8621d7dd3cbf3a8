/**
 * The live whiteboard (components/LiveWhiteboard.tsx): its Markdown export
 * and the condition under which the export buttons are offered.
 */
module LiveWhiteboard {
  import opened JsText
  import opened Types

  const NotesHeader := "# Live Session Notes\n\n"
  const BlockSeparator := "---\n\n"

  /** The Markdown one segment contributes: heading, explanation, optional image line, separator. */
  function SegmentBlock(s: LiveSegment): (block: string)
    ensures StartsWith(block, "## " + s.keyIdea + "\n\n" + s.detailedExplanation + "\n\n")
    ensures EndsWith(block, BlockSeparator)
  {
    "## " + s.keyIdea + "\n\n" + s.detailedExplanation + "\n\n" + ImageLine(s.keyIdea, s.imageUrl) + BlockSeparator
  }

  /** A block holds an image line exactly when the segment has a non-empty image url. */
  lemma SegmentBlockImage(s: LiveSegment)
    ensures IsTruthy(s.imageUrl) ==>
      SegmentBlock(s) == "## " + s.keyIdea + "\n\n" + s.detailedExplanation + "\n\n"
                         + "![" + s.keyIdea + "](" + s.imageUrl.value + ")\n\n" + BlockSeparator
    ensures !IsTruthy(s.imageUrl) ==>
      SegmentBlock(s) == "## " + s.keyIdea + "\n\n" + s.detailedExplanation + "\n\n" + BlockSeparator
  {
  }

  /** The blocks of `segments`, in list order. */
  function Blocks(segments: seq<LiveSegment>): string {
    if segments == [] then "" else SegmentBlock(segments[0]) + Blocks(segments[1..])
  }

  /** The exported notes: the header followed by every segment's block. */
  function LiveMarkdown(segments: seq<LiveSegment>): (md: string)
    ensures StartsWith(md, NotesHeader)
    ensures segments == [] ==> md == NotesHeader
  {
    NotesHeader + Blocks(segments)
  }

  /** The blocks of two runs of segments are the blocks of each, one after the other. */
  lemma {:induction false} BlocksAppend(a: seq<LiveSegment>, b: seq<LiveSegment>)
    ensures Blocks(a + b) == Blocks(a) + Blocks(b)
  {
    if a != [] {
      assert (a + b)[1..] == a[1..] + b;
      BlocksAppend(a[1..], b);
    } else {
      assert a + b == b;
    }
  }

  /** The export is a left fold: one more segment adds exactly its block at the end. */
  lemma LiveMarkdownSnoc(segments: seq<LiveSegment>, s: LiveSegment)
    ensures LiveMarkdown(segments + [s]) == LiveMarkdown(segments) + SegmentBlock(s)
  {
    BlocksAppend(segments, [s]);
    assert Blocks([s]) == SegmentBlock(s) + Blocks([]);
  }

  /** Segment `i`'s block follows the notes of the segments before it and precedes the blocks of those after it. */
  lemma LiveMarkdownInOrder(segments: seq<LiveSegment>, i: nat)
    requires i < |segments|
    ensures LiveMarkdown(segments) ==
      LiveMarkdown(segments[..i]) + (SegmentBlock(segments[i]) + Blocks(segments[i + 1..]))
  {
    assert segments == segments[..i] + segments[i..];
    BlocksAppend(segments[..i], segments[i..]);
  }

  /** Appending a segment's pieces one `+=` at a time appends its block. */
  lemma AppendBlock(before: string, s: LiveSegment)
    ensures IsTruthy(s.imageUrl) ==>
      before + "## " + s.keyIdea + "\n\n" + s.detailedExplanation + "\n\n"
      + "![" + s.keyIdea + "](" + s.imageUrl.value + ")\n\n" + BlockSeparator == before + SegmentBlock(s)
    ensures !IsTruthy(s.imageUrl) ==>
      before + "## " + s.keyIdea + "\n\n" + s.detailedExplanation + "\n\n" + BlockSeparator
      == before + SegmentBlock(s)
  {
  }

  /** The export handler: start from the header and append each segment's pieces in turn. */
  method ExportLiveMarkdown(segments: seq<LiveSegment>) returns (md: string)
    ensures md == LiveMarkdown(segments)
  {
    md := NotesHeader;
    for i := 0 to |segments|
      invariant md == LiveMarkdown(segments[..i])
    {
      var segment := segments[i];
      ghost var before := md;
      md := md + "## " + segment.keyIdea + "\n\n";
      md := md + segment.detailedExplanation + "\n\n";
      if IsTruthy(segment.imageUrl) {
        md := md + "![" + segment.keyIdea + "](" + segment.imageUrl.value + ")\n\n";
      }
      md := md + BlockSeparator;
      AppendBlock(before, segment);
      LiveMarkdownSnoc(segments[..i], segment);
      assert segments[..i + 1] == segments[..i] + [segment];
    }
    assert segments[..|segments|] == segments;
  }

  /** The export buttons are offered only after the session and only when there is something to export. */
  predicate ExportButtonsVisible(isLive: bool, segments: seq<LiveSegment>)
    ensures ExportButtonsVisible(isLive, segments) <==> !isLive && LiveMarkdown(segments) != NotesHeader
  {
    !isLive && |segments| > 0
  }

  /** Whenever the buttons are offered, the export holds at least one block beyond the header. */
  lemma VisibleExportHasBlocks(isLive: bool, segments: seq<LiveSegment>)
    requires ExportButtonsVisible(isLive, segments)
    ensures |LiveMarkdown(segments)| > |NotesHeader| + |BlockSeparator|
  {
  }
}
