/**
 * The static "explain a topic" mode (App.tsx): the submit/reset bookkeeping
 * around one text call and one batch of image calls, the mapping of a failed
 * image call to the sentinel "error", and the positional merge of the image
 * results into whatever content is current.
 */
module App {
  import opened Wrappers
  import opened Types

  /** What a failed image call resolves to instead of rejecting the batch. */
  const ImageErrorSentinel := "error"

  const DefaultErrorMessage := "An unexpected error occurred. Please try again."

  /** The outcome of the text call: the content, or the thrown error's message. */
  datatype Result<T> = Ok(value: T) | Err(message: string)

  /**
   * The settled batch of image calls, one entry per section in section order:
   * the url of a call that succeeded, the sentinel for one that failed.
   */
  function SentinelMap(outcomes: seq<Option<string>>): (urls: seq<string>)
    ensures |urls| == |outcomes|
    ensures forall i :: 0 <= i < |outcomes| && outcomes[i].None? ==> urls[i] == ImageErrorSentinel
    ensures forall i :: 0 <= i < |outcomes| && outcomes[i].Some? ==> urls[i] == outcomes[i].value
  {
    if outcomes == [] then []
    else [outcomes[0].GetOr(ImageErrorSentinel)] + SentinelMap(outcomes[1..])
  }

  /** How the merge reads entry `i` of the results: absent past the end or at the sentinel. */
  function ImageAt(urls: seq<string>, i: nat): Option<string> {
    if i < |urls| && urls[i] != ImageErrorSentinel then Some(urls[i]) else None
  }

  /** Section `s` with the image the merge gives it. */
  function WithImage(s: WhiteboardSection, url: Option<string>): WhiteboardSection {
    s.(imageUrl := url)
  }

  /**
   * The functional update run once all image calls settled: absent content
   * stays absent; otherwise every section keeps its text and gets the result
   * at its own index as image, absent where that result is the sentinel.
   */
  function MergeImages(prev: Option<WhiteboardContent>, urls: seq<string>): (next: Option<WhiteboardContent>)
    ensures prev.None? <==> next.None?
    ensures prev.Some? ==>
      && next.value.title == prev.value.title
      && next.value.introduction == prev.value.introduction
      && |next.value.sections| == |prev.value.sections|
    ensures prev.Some? ==> forall i :: 0 <= i < |prev.value.sections| ==>
      && next.value.sections[i].heading == prev.value.sections[i].heading
      && next.value.sections[i].explanation == prev.value.sections[i].explanation
      && next.value.sections[i].imagePrompt == prev.value.sections[i].imagePrompt
    ensures prev.Some? ==> forall i :: 0 <= i < |prev.value.sections| ==>
      && (i < |urls| && urls[i] != ImageErrorSentinel ==> next.value.sections[i].imageUrl == Some(urls[i]))
      && (i >= |urls| || urls[i] == ImageErrorSentinel ==> next.value.sections[i].imageUrl == None)
  {
    match prev
    case None => None
    case Some(c) =>
      var sections := seq(|c.sections|, i requires 0 <= i < |c.sections| => WithImage(c.sections[i], ImageAt(urls, i)));
      Some(c.(sections := sections))
  }

  /**
   * Merging the settled batch of a whole submission gives each section exactly
   * the outcome of its own image call, provided no successful call returned the
   * sentinel text itself (a data url never does).
   */
  lemma {:induction false} MergeGivesEachSectionItsOutcome(c: WhiteboardContent, outcomes: seq<Option<string>>)
    requires |outcomes| == |c.sections|
    requires forall i :: 0 <= i < |outcomes| ==> outcomes[i] != Some(ImageErrorSentinel)
    ensures MergeImages(Some(c), SentinelMap(outcomes)).Some?
    ensures forall i :: 0 <= i < |c.sections| ==>
      MergeImages(Some(c), SentinelMap(outcomes)).value.sections[i] == c.sections[i].(imageUrl := outcomes[i])
  {
    var urls := SentinelMap(outcomes);
    var next := MergeImages(Some(c), urls).value;
    forall i | 0 <= i < |c.sections|
      ensures next.sections[i] == c.sections[i].(imageUrl := outcomes[i])
    {
      match outcomes[i]
      case None =>
      case Some(u) => assert u != ImageErrorSentinel;
    }
  }

  /** Merging the same results twice is merging once. */
  lemma MergeIdempotent(prev: Option<WhiteboardContent>, urls: seq<string>)
    ensures MergeImages(MergeImages(prev, urls), urls) == MergeImages(prev, urls)
  {
    if prev.Some? {
      var once := MergeImages(prev, urls).value;
      assert MergeImages(Some(once), urls).value.sections == once.sections;
    }
  }

  /** The image prompts of the sections, in section order: one image call each. */
  function ImagePrompts(c: WhiteboardContent): (prompts: seq<string>)
    ensures |prompts| == |c.sections|
    ensures forall i :: 0 <= i < |c.sections| ==> prompts[i] == c.sections[i].imagePrompt
  {
    seq(|c.sections|, i requires 0 <= i < |c.sections| => c.sections[i].imagePrompt)
  }

  /** The message shown for a failed text call: its own message, or the default when that is empty. */
  function SubmitErrorMessage(message: string): (shown: string)
    ensures shown != ""
    ensures message != "" ==> shown == message
    ensures message == "" ==> shown == DefaultErrorMessage
  {
    if message == "" then DefaultErrorMessage else message
  }

  /** The explain-mode state of the application. */
  class ExplainMode {
    var isLoading: bool
    var error: Option<string>
    var content: Option<WhiteboardContent>

    constructor ()
      ensures !isLoading && error == None && content == None
    {
      isLoading, error, content := false, None, None;
    }

    /** A submission starts: loading, no error, no content. */
    method BeginSubmit()
      modifies this
      ensures isLoading && error == None && content == None
    {
      isLoading := true;
      error := None;
      content := None;
    }

    /**
     * The text call returned `explanation`: show it at once and start one
     * image call per section, in order.
     */
    method ExplanationReceived(explanation: WhiteboardContent) returns (prompts: seq<string>)
      modifies this`content
      ensures content == Some(explanation)
      ensures prompts == ImagePrompts(explanation)
    {
      content := Some(explanation);
      prompts := ImagePrompts(explanation);
    }

    /** Every image call settled (`None` for a failure): merge into the current content, then stop loading. */
    method ImagesSettled(outcomes: seq<Option<string>>)
      modifies this`content, this`isLoading
      ensures content == MergeImages(old(content), SentinelMap(outcomes))
      ensures !isLoading
    {
      var imageUrls := SentinelMap(outcomes);
      content := MergeImages(content, imageUrls);
      isLoading := false;
    }

    /** The text call failed with `message`: content stays absent, the error is shown, loading stops. */
    method ExplanationFailed(message: string)
      modifies this`error, this`isLoading
      ensures error == Some(SubmitErrorMessage(message))
      ensures !isLoading
    {
      error := Some(SubmitErrorMessage(message));
      isLoading := false;
    }

    /**
     * One submission run without interruption: `text` is the outcome of the
     * text call (its error message on failure) and `images` the outcomes of the
     * image calls it starts.
     */
    method HandleTopicSubmit(text: Result<WhiteboardContent>, images: seq<Option<string>>)
      requires text.Ok? ==> |images| == |text.value.sections|
      modifies this
      ensures !isLoading
      ensures text.Err? ==> content == None && error == Some(SubmitErrorMessage(text.message))
      ensures text.Ok? ==> error == None && content == MergeImages(Some(text.value), SentinelMap(images))
      ensures text.Ok? && (forall i :: 0 <= i < |images| ==> images[i] != Some(ImageErrorSentinel)) ==>
        && content.Some?
        && content.value.title == text.value.title
        && content.value.introduction == text.value.introduction
        && |content.value.sections| == |text.value.sections|
        && forall i :: 0 <= i < |images| ==> content.value.sections[i] == text.value.sections[i].(imageUrl := images[i])
    {
      BeginSubmit();
      match text
      case Err(message) =>
        ExplanationFailed(message);
      case Ok(explanation) =>
        var prompts := ExplanationReceived(explanation);
        ImagesSettled(images);
        if forall i :: 0 <= i < |images| ==> images[i] != Some(ImageErrorSentinel) {
          MergeGivesEachSectionItsOutcome(explanation, images);
        }
    }

    /** Leaving and re-entering explain mode: no content, no error, not loading. */
    method Reset()
      modifies this
      ensures content == None && error == None && !isLoading
    {
      content := None;
      error := None;
      isLoading := false;
    }
  }
}
