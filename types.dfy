/** The record types shared by both modes of the application (types.ts). */
module Types {
  import opened Wrappers

  /** One section of a static-mode whiteboard. */
  datatype WhiteboardSection = WhiteboardSection(
    heading: string,
    explanation: string,
    imagePrompt: string,
    imageUrl: Option<string>)

  /** A whole static-mode whiteboard. */
  datatype WhiteboardContent = WhiteboardContent(
    title: string,
    introduction: string,
    sections: seq<WhiteboardSection>)

  /** What one extraction call distils from a stretch of transcript. */
  datatype LiveSegmentData = LiveSegmentData(
    keyIdea: string,
    detailedExplanation: string,
    imagePrompt: string)

  /** A segment shown on the live whiteboard: the extracted data plus an id and an optional image. */
  datatype LiveSegment = LiveSegment(
    keyIdea: string,
    detailedExplanation: string,
    imagePrompt: string,
    id: string,
    imageUrl: Option<string>)

  /** JavaScript truthiness of an optional string: present and not empty. */
  predicate IsTruthy(s: Option<string>) {
    s.Some? && s.value != ""
  }

  /**
   * The Markdown image line both exports write for an optional image:
   * `![alt](url)` and a blank line when the url is truthy, nothing otherwise.
   */
  function ImageLine(alt: string, url: Option<string>): (line: string)
    ensures line != [] <==> IsTruthy(url)
    ensures IsTruthy(url) ==> line == "![" + alt + "](" + url.value + ")\n\n"
  {
    if IsTruthy(url) then "![" + alt + "](" + url.value + ")\n\n" else ""
  }
}
