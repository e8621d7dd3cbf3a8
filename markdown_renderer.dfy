/**
 * The mini Markdown renderer (components/MarkdownRenderer.tsx): text is cut at
 * newlines into paragraphs, blank ones are dropped, and each paragraph is split
 * by the pattern `(\*\*.*?\*\*|\*.*?\*)` with the matches kept; every part is
 * then shown as bold, italic or plain text by its asterisks.
 */
module MarkdownRenderer {
  import opened Wrappers
  import opened JsText

  predicate HasNoNewline(s: string) {
    forall i :: 0 <= i < |s| ==> s[i] != '\n'
  }

  /** Position of the first newline of `s`, or `|s|` when there is none. */
  function NewlineIndex(s: string): (k: nat)
    ensures k <= |s|
    ensures HasNoNewline(s[..k])
    ensures k < |s| ==> s[k] == '\n'
  {
    if s == [] || s[0] == '\n' then 0
    else
      var k := 1 + NewlineIndex(s[1..]);
      assert forall i :: 1 <= i < k ==> s[i] == s[1..][i - 1];
      k
  }

  /** `s.split('\n')`: the pieces between newlines, including empty ones. */
  function SplitLines(s: string): (lines: seq<string>)
    ensures |lines| >= 1
    ensures forall i :: 0 <= i < |lines| ==> HasNoNewline(lines[i])
    decreases |s|
  {
    var k := NewlineIndex(s);
    if k == |s| then [s] else [s[..k]] + SplitLines(s[k + 1..])
  }

  /** `lines.join('\n')`. */
  function JoinLines(lines: seq<string>): string
    requires |lines| >= 1
  {
    if |lines| == 1 then lines[0] else lines[0] + "\n" + JoinLines(lines[1..])
  }

  /** Splitting at newlines loses nothing: joining the lines back gives the text. */
  lemma {:induction false} JoinSplitLines(s: string)
    ensures JoinLines(SplitLines(s)) == s
    decreases |s|
  {
    var k := NewlineIndex(s);
    if k < |s| {
      var rest := SplitLines(s[k + 1..]);
      calc {
        JoinLines(SplitLines(s));
        JoinLines([s[..k]] + rest);
        { JoinLinesCons(s[..k], rest); }
        s[..k] + "\n" + JoinLines(rest);
        { JoinSplitLines(s[k + 1..]); }
        s[..k] + "\n" + s[k + 1..];
        { assert s == s[..k] + "\n" + s[k + 1..]; }
        s;
      }
    }
  }

  /** A line in front joins with a newline in front. */
  lemma JoinLinesCons(line: string, rest: seq<string>)
    requires |rest| >= 1
    ensures JoinLines([line] + rest) == line + "\n" + JoinLines(rest)
  {
    assert ([line] + rest)[1..] == rest;
  }

  /** `lines.filter(p => p.trim() !== '')`. */
  function KeepNonBlank(lines: seq<string>): (kept: seq<string>)
    ensures |kept| <= |lines|
  {
    if lines == [] then []
    else if Trim(lines[0]) == "" then KeepNonBlank(lines[1..])
    else [lines[0]] + KeepNonBlank(lines[1..])
  }

  /** The filter keeps exactly the lines that do not trim to nothing. */
  lemma {:induction false} KeepNonBlankMembers(lines: seq<string>)
    ensures forall p :: p in KeepNonBlank(lines) <==> p in lines && Trim(p) != ""
  {
    if lines != [] {
      KeepNonBlankMembers(lines[1..]);
      assert lines == [lines[0]] + lines[1..];
    }
  }

  /** The filter works line by line: filtering two runs of lines one after the other is filtering each. */
  lemma {:induction false} KeepNonBlankAppend(a: seq<string>, b: seq<string>)
    ensures KeepNonBlank(a + b) == KeepNonBlank(a) + KeepNonBlank(b)
  {
    if a == [] {
      assert a + b == b;
    } else {
      assert (a + b)[1..] == a[1..] + b;
      KeepNonBlankAppend(a[1..], b);
    }
  }

  /** The paragraphs rendered for `text`: its lines in order, minus those that trim to nothing. */
  function Paragraphs(text: string): (paragraphs: seq<string>)
    ensures forall i :: 0 <= i < |paragraphs| ==> HasNoNewline(paragraphs[i]) && Trim(paragraphs[i]) != ""
    ensures forall line :: line in SplitLines(text) && Trim(line) != "" <==> line in paragraphs
  {
    var lines := SplitLines(text);
    var kept := KeepNonBlank(lines);
    KeepNonBlankMembers(lines);
    assert forall i :: 0 <= i < |kept| ==> kept[i] in kept;
    kept
  }

  /** A run of `n` asterisks (one or two) starts at `j`. */
  predicate StarsAt(s: string, j: nat, n: nat)
    requires n == 1 || n == 2
    requires j + n <= |s|
  {
    s[j] == '*' && (n == 1 || s[j + 1] == '*')
  }

  /**
   * Lazy `.*?` followed by `n` asterisks, tried from `j`: the end of the
   * shortest such run, which may not cross a line terminator.
   */
  function CloseAt(s: string, j: nat, n: nat): (e: Option<nat>)
    requires j <= |s| && (n == 1 || n == 2)
    ensures e.Some? ==> j + n <= e.value <= |s| && StarsAt(s, e.value - n, n)
    decreases |s| - j
  {
    if j + n > |s| then None
    else if StarsAt(s, j, n) then Some(j + n)
    else if IsLineTerminator(s[j]) then None
    else CloseAt(s, j + 1, n)
  }

  /**
   * The end of the match of `\*\*.*?\*\*|\*.*?\*` at position `i`: the bold
   * alternative first, then the italic one.
   */
  function MatchAt(s: string, i: nat): (e: Option<nat>)
    requires i < |s|
    ensures e.Some? ==> i + 2 <= e.value <= |s| && s[i] == '*' && s[e.value - 1] == '*'
  {
    var bold := if i + 2 <= |s| && StarsAt(s, i, 2) then CloseAt(s, i + 2, 2) else None;
    if bold.Some? then bold
    else if s[i] == '*' then CloseAt(s, i + 1, 1)
    else None
  }

  /** No line terminator lies in `s[j..k]`. */
  predicate NoLineTerminator(s: string, j: nat, k: nat)
    requires j <= k <= |s|
  {
    forall t :: j <= t < k ==> !IsLineTerminator(s[t])
  }

  /**
   * `CloseAt` is the lazy `.*?` followed by `n` asterisks: a found run is the
   * first one from `j` and no line terminator comes before it; when none is
   * found, every run from `j` on has a line terminator before it.
   */
  lemma {:induction false} CloseAtIsLazy(s: string, j: nat, n: nat)
    requires j <= |s| && (n == 1 || n == 2)
    ensures CloseAt(s, j, n).Some? ==>
      && NoLineTerminator(s, j, CloseAt(s, j, n).value - n)
      && forall k :: j <= k < CloseAt(s, j, n).value - n ==> !StarsAt(s, k, n)
    ensures CloseAt(s, j, n).None? ==>
      forall k :: j <= k && k + n <= |s| && NoLineTerminator(s, j, k) ==> !StarsAt(s, k, n)
    decreases |s| - j
  {
    if j + n <= |s| && !StarsAt(s, j, n) && !IsLineTerminator(s[j]) {
      CloseAtIsLazy(s, j + 1, n);
      forall k | j + 1 <= k <= |s| && NoLineTerminator(s, j + 1, k)
        ensures NoLineTerminator(s, j, k)
      {
      }
    }
  }

  /**
   * The alternation `\*\*.*?\*\*|\*.*?\*` at `i`: the bold alternative wins
   * whenever it closes; otherwise an asterisk at `i` tries the italic one;
   * without an asterisk at `i` nothing matches.
   */
  lemma MatchAtAlternatives(s: string, i: nat)
    requires i < |s|
    ensures i + 2 <= |s| && StarsAt(s, i, 2) && CloseAt(s, i + 2, 2).Some? ==>
      MatchAt(s, i) == CloseAt(s, i + 2, 2)
    ensures !(i + 2 <= |s| && StarsAt(s, i, 2) && CloseAt(s, i + 2, 2).Some?) && s[i] == '*' ==>
      MatchAt(s, i) == CloseAt(s, i + 1, 1)
    ensures s[i] != '*' ==> MatchAt(s, i) == None
  {
  }

  /** A part delimited as a match is: starts and ends with an asterisk, at least two long. */
  predicate IsDelimited(part: string) {
    |part| >= 2 && part[0] == '*' && part[|part| - 1] == '*'
  }

  /**
   * The split loop from a part starting at `p`, searching at `q`: text up to
   * the next match, the match itself, and so on; the rest of the text last.
   */
  function SplitFrom(s: string, p: nat, q: nat): (parts: seq<string>)
    requires p <= q <= |s|
    ensures |parts| % 2 == 1
    ensures forall m :: 0 <= m < |parts| && m % 2 == 1 ==> IsDelimited(parts[m])
    decreases |s| - q
  {
    if q == |s| then [s[p..]]
    else
      match MatchAt(s, q)
      case None => SplitFrom(s, p, q + 1)
      case Some(e) => [s[p..q], s[q..e]] + SplitFrom(s, e, e)
  }

  /** `paragraph.split(/(\*\*.*?\*\*|\*.*?\*)/g)`. */
  function Parts(paragraph: string): (parts: seq<string>)
    ensures |parts| % 2 == 1
    ensures forall m :: 0 <= m < |parts| && m % 2 == 1 ==> IsDelimited(parts[m])
  {
    SplitFrom(paragraph, 0, 0)
  }

  function Concat(parts: seq<string>): string {
    if parts == [] then "" else parts[0] + Concat(parts[1..])
  }

  /** The summed length of the parts. */
  function Length(parts: seq<string>): nat {
    if parts == [] then 0 else |parts[0]| + Length(parts[1..])
  }

  /** The offset of part `m` within the text the parts cover. */
  function Offset(parts: seq<string>, m: nat): nat
    requires m <= |parts|
  {
    Length(parts[..m])
  }

  lemma {:induction false} SplitFromConcat(s: string, p: nat, q: nat)
    requires p <= q <= |s|
    ensures Concat(SplitFrom(s, p, q)) == s[p..]
    decreases |s| - q
  {
    if q < |s| {
      match MatchAt(s, q)
      case None => SplitFromConcat(s, p, q + 1);
      case Some(e) =>
        var rest := SplitFrom(s, e, e);
        calc {
          Concat(SplitFrom(s, p, q));
          Concat([s[p..q], s[q..e]] + rest);
          { ConcatTwoMore(s[p..q], s[q..e], rest); }
          s[p..q] + (s[q..e] + Concat(rest));
          { SplitFromConcat(s, e, e); }
          s[p..q] + (s[q..e] + s[e..]);
          { assert s[p..] == s[p..q] + (s[q..e] + s[e..]); }
          s[p..];
        }
    }
  }

  /** Two parts in front add their text in front. */
  lemma ConcatTwoMore(x: string, y: string, rest: seq<string>)
    ensures Concat([x, y] + rest) == x + (y + Concat(rest))
  {
    var parts := [x, y] + rest;
    assert parts[1..] == [y] + rest;
    assert parts[1..][1..] == rest;
  }

  /** Splitting keeps the delimiters: the parts of a paragraph concatenate back to it. */
  lemma PartsConcat(paragraph: string)
    ensures Concat(Parts(paragraph)) == paragraph
  {
    SplitFromConcat(paragraph, 0, 0);
  }

  /** Offsets past the two leading parts are offsets into the rest, shifted by their lengths. */
  lemma OffsetShift(x: string, y: string, rest: seq<string>, m: nat)
    requires 2 <= m <= |rest| + 2
    ensures Offset([x, y] + rest, m) == |x| + |y| + Offset(rest, m - 2)
  {
    var prefix := ([x, y] + rest)[..m];
    assert prefix[0] == x && prefix[1..][0] == y;
    assert prefix[1..][1..] == rest[..m - 2];
    assert Length(prefix) == |x| + Length(prefix[1..]);
    assert Length(prefix[1..]) == |y| + Length(prefix[1..][1..]);
  }

  /** Parts laid out from `p` in `s`: no position inside an even (text) part starts a match. */
  predicate TextPartsHoldNoMatch(s: string, p: nat, parts: seq<string>) {
    forall m, k :: 0 <= m < |parts| && m % 2 == 0 && p + Offset(parts, m) <= k < p + Offset(parts, m) + |parts[m]| && k < |s| ==>
      MatchAt(s, k).None?
  }

  /** Parts laid out from `p` in `s`: every odd part is exactly the match found at its position. */
  predicate DelimitedPartsAreMatches(s: string, p: nat, parts: seq<string>) {
    forall m :: 0 <= m < |parts| && m % 2 == 1 ==> IsMatchAt(s, p + Offset(parts, m), |parts[m]|)
  }

  /** The pattern matches `s` at `i` with a match `length` long. */
  predicate IsMatchAt(s: string, i: nat, length: nat) {
    i < |s| && MatchAt(s, i) == Some(i + length)
  }

  /** Text parts of the split hold no position at which the pattern matches. */
  lemma {:induction false} SplitFromTextParts(s: string, p: nat, q: nat)
    requires p <= q <= |s|
    requires forall k :: p <= k < q ==> MatchAt(s, k).None?
    ensures TextPartsHoldNoMatch(s, p, SplitFrom(s, p, q))
    decreases |s| - q
  {
    if q == |s| {
      assert Offset(SplitFrom(s, p, q), 0) == 0;
    } else {
      match MatchAt(s, q)
      case None =>
        SplitFromTextParts(s, p, q + 1);
      case Some(e) =>
        SplitFromTextParts(s, e, e);
        TextPartsStep(s, p, q, e, SplitFrom(s, e, e));
    }
  }

  /** A text part free of matches and a match in front of parts that satisfy the property satisfy it too. */
  lemma TextPartsStep(s: string, p: nat, q: nat, e: nat, rest: seq<string>)
    requires p <= q < e <= |s|
    requires forall k :: p <= k < q ==> MatchAt(s, k).None?
    requires TextPartsHoldNoMatch(s, e, rest)
    ensures TextPartsHoldNoMatch(s, p, [s[p..q], s[q..e]] + rest)
  {
    var parts := [s[p..q], s[q..e]] + rest;
    forall m, k | 0 <= m < |parts| && m % 2 == 0 && p + Offset(parts, m) <= k < p + Offset(parts, m) + |parts[m]| && k < |s|
      ensures MatchAt(s, k).None?
    {
      if m == 0 {
        assert Offset(parts, 0) == 0;
      } else {
        TextPartShifted(s, p, q, e, rest, m, k);
      }
    }
  }

  /** A position inside a later text part lies inside the matching text part of `rest`. */
  lemma TextPartShifted(s: string, p: nat, q: nat, e: nat, rest: seq<string>, m: nat, k: nat)
    requires p <= q < e <= |s| && k < |s|
    requires TextPartsHoldNoMatch(s, e, rest)
    requires 2 <= m < |rest| + 2 && m % 2 == 0
    requires p + Offset([s[p..q], s[q..e]] + rest, m) <= k < p + Offset([s[p..q], s[q..e]] + rest, m) + |rest[m - 2]|
    ensures MatchAt(s, k).None?
  {
    OffsetShift(s[p..q], s[q..e], rest, m);
    assert (m - 2) % 2 == 0;
    assert e + Offset(rest, m - 2) <= k < e + Offset(rest, m - 2) + |rest[m - 2]|;
  }

  /** Every delimited part of the split is exactly the match the pattern finds at its position. */
  lemma {:induction false} SplitFromMatchParts(s: string, p: nat, q: nat)
    requires p <= q <= |s|
    ensures DelimitedPartsAreMatches(s, p, SplitFrom(s, p, q))
    decreases |s| - q
  {
    if q < |s| {
      match MatchAt(s, q)
      case None =>
        SplitFromMatchParts(s, p, q + 1);
      case Some(e) =>
        SplitFromMatchParts(s, e, e);
        MatchPartsStep(s, p, q, e, SplitFrom(s, e, e));
    }
  }

  /** A text part and a match in front of parts that satisfy the property satisfy it too. */
  lemma MatchPartsStep(s: string, p: nat, q: nat, e: nat, rest: seq<string>)
    requires p <= q < e <= |s| && MatchAt(s, q) == Some(e)
    requires DelimitedPartsAreMatches(s, e, rest)
    ensures DelimitedPartsAreMatches(s, p, [s[p..q], s[q..e]] + rest)
  {
    var parts := [s[p..q], s[q..e]] + rest;
    forall m | 0 <= m < |parts| && m % 2 == 1
      ensures IsMatchAt(s, p + Offset(parts, m), |parts[m]|)
    {
      if m == 1 {
        MatchPartFirst(s, p, q, e, rest, parts);
      } else {
        MatchPartShifted(s, p, q, e, rest, parts, m);
      }
    }
  }

  /** The match in front is the match found at its position. */
  lemma MatchPartFirst(s: string, p: nat, q: nat, e: nat, rest: seq<string>, parts: seq<string>)
    requires p <= q < e <= |s| && MatchAt(s, q) == Some(e)
    requires parts == [s[p..q], s[q..e]] + rest
    ensures IsMatchAt(s, p + Offset(parts, 1), |parts[1]|)
  {
    assert parts[..1] == [s[p..q]];
    assert Length([s[p..q]]) == |s[p..q]| + Length([s[p..q]][1..]);
    assert Offset(parts, 1) == q - p;
  }

  /** A later delimited part is the match of `rest` it came from, at the shifted position. */
  lemma MatchPartShifted(s: string, p: nat, q: nat, e: nat, rest: seq<string>, parts: seq<string>, m: nat)
    requires p <= q < e <= |s|
    requires DelimitedPartsAreMatches(s, e, rest)
    requires parts == [s[p..q], s[q..e]] + rest
    requires 3 <= m < |parts| && m % 2 == 1
    ensures IsMatchAt(s, p + Offset(parts, m), |parts[m]|)
  {
    OffsetShift(s[p..q], s[q..e], rest, m);
    assert parts[m] == rest[m - 2];
    assert (m - 2) % 2 == 1;
  }

  /**
   * The parts of a paragraph follow the pattern's leftmost matches: no
   * position inside a text part starts a match, and each delimited part is the
   * very match found at its position.
   */
  lemma PartsAreLeftmostMatches(paragraph: string)
    ensures TextPartsHoldNoMatch(paragraph, 0, Parts(paragraph))
    ensures DelimitedPartsAreMatches(paragraph, 0, Parts(paragraph))
  {
    SplitFromTextParts(paragraph, 0, 0);
    SplitFromMatchParts(paragraph, 0, 0);
  }

  /** How a part is shown. */
  datatype Span = Plain(text: string) | Bold(text: string) | Italic(text: string)

  /**
   * A part that starts and ends with `**` is bold without two asterisks at
   * each end; otherwise one that starts and ends with `*` is italic without
   * one at each end; anything else is plain text as it is.
   */
  function RenderPart(part: string): (span: Span)
    ensures StartsWith(part, "**") && EndsWith(part, "**") ==> span == Bold(SliceInner(part, 2, 2))
    ensures !(StartsWith(part, "**") && EndsWith(part, "**")) && StartsWith(part, "*") && EndsWith(part, "*") ==>
      span == Italic(SliceInner(part, 1, 1))
    ensures !(StartsWith(part, "*") && EndsWith(part, "*")) ==> span == Plain(part)
  {
    if StartsWith(part, "**") && EndsWith(part, "**") then Bold(SliceInner(part, 2, 2))
    else if StartsWith(part, "*") && EndsWith(part, "*") then Italic(SliceInner(part, 1, 1))
    else Plain(part)
  }

  /** The Markdown a span stands for. */
  function Source(span: Span): string {
    match span
    case Plain(t) => t
    case Bold(t) => "**" + t + "**"
    case Italic(t) => "*" + t + "*"
  }

  /** The Markdown a sequence of spans stands for, one span after the other. */
  function Sources(spans: seq<Span>): string {
    if spans == [] then "" else Source(spans[0]) + Sources(spans[1..])
  }

  /**
   * The strings too short to hold their own delimiters twice over: `*`, `**`
   * and `***`. A split yields only the first two (a text part that is a single
   * asterisk, as in `*` or after the match in `**a***`, and the empty italic
   * match `**`); `***` is listed because `RenderPartSource` is stated for every
   * string, and `***` also renders as an empty bold span.
   */
  predicate IsDegenerate(part: string) {
    part == "*" || part == "**" || part == "***"
  }

  /** Rendering drops only delimiters: but for the degenerate parts, the span gives back the part. */
  lemma RenderPartSource(part: string)
    requires !IsDegenerate(part)
    ensures Source(RenderPart(part)) == part
  {
    if StartsWith(part, "**") && EndsWith(part, "**") {
      assert |part| >= 4;
      assert part == part[..2] + part[2..|part| - 2] + part[|part| - 2..];
    } else if StartsWith(part, "*") && EndsWith(part, "*") {
      assert |part| >= 2;
      assert part == part[..1] + part[1..|part| - 1] + part[|part| - 1..];
    }
  }

  /** `renderText`: the spans of one paragraph. */
  function RenderText(paragraph: string): (spans: seq<Span>)
    ensures |spans| == |Parts(paragraph)|
    ensures forall m :: 0 <= m < |spans| ==> spans[m] == RenderPart(Parts(paragraph)[m])
  {
    var parts := Parts(paragraph);
    seq(|parts|, m requires 0 <= m < |parts| => RenderPart(parts[m]))
  }

  /** Spans rendered part by part from parts that are not degenerate stand for the parts joined. */
  lemma {:induction false} SourcesOfRenderedParts(spans: seq<Span>, parts: seq<string>)
    requires |spans| == |parts|
    requires forall m :: 0 <= m < |parts| ==> spans[m] == RenderPart(parts[m]) && !IsDegenerate(parts[m])
    ensures Sources(spans) == Concat(parts)
  {
    if parts != [] {
      RenderPartSource(parts[0]);
      SourcesOfRenderedParts(spans[1..], parts[1..]);
    }
  }

  /**
   * Rendering a paragraph drops nothing but delimiters: when none of its parts
   * is degenerate, the Markdown of its spans is the paragraph itself.
   */
  lemma RenderTextSource(paragraph: string)
    requires forall m :: 0 <= m < |Parts(paragraph)| ==> !IsDegenerate(Parts(paragraph)[m])
    ensures Sources(RenderText(paragraph)) == paragraph
  {
    SourcesOfRenderedParts(RenderText(paragraph), Parts(paragraph));
    PartsConcat(paragraph);
  }

  /** The whole rendering: one sequence of spans per paragraph. */
  function Render(text: string): (rendered: seq<seq<Span>>)
    ensures |rendered| == |Paragraphs(text)|
    ensures forall i :: 0 <= i < |rendered| ==> rendered[i] == RenderText(Paragraphs(text)[i])
  {
    var paragraphs := Paragraphs(text);
    seq(|paragraphs|, i requires 0 <= i < |paragraphs| => RenderText(paragraphs[i]))
  }

  /**
   * End to end: every rendered paragraph stands for one non-blank line of the
   * text, in order, when no part of any paragraph is degenerate.
   */
  lemma RenderSource(text: string)
    requires forall i, m :: 0 <= i < |Paragraphs(text)| && 0 <= m < |Parts(Paragraphs(text)[i])| ==>
      !IsDegenerate(Parts(Paragraphs(text)[i])[m])
    ensures |Render(text)| == |Paragraphs(text)|
    ensures forall i :: 0 <= i < |Render(text)| ==> Sources(Render(text)[i]) == Paragraphs(text)[i]
  {
    forall i | 0 <= i < |Render(text)|
      ensures Sources(Render(text)[i]) == Paragraphs(text)[i]
    {
      RenderTextSource(Paragraphs(text)[i]);
    }
  }
}
