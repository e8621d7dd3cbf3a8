/** The topic form (components/InputForm.tsx): when a topic is submitted, and what is submitted. */
module InputForm {
  import opened Wrappers
  import opened JsText

  /**
   * `handleSubmit`: the trimmed topic when it is non-empty and no generation
   * is running, nothing otherwise.
   */
  function Submission(topic: string, isLoading: bool): (submitted: Option<string>)
    ensures isLoading ==> submitted == None
    ensures IsBlank(topic) ==> submitted == None
    ensures !isLoading && !IsBlank(topic) ==> submitted == Some(Trim(topic))
    ensures submitted.Some? ==> submitted.value != ""
    ensures submitted.Some? ==>
      !IsWhitespace(submitted.value[0]) && !IsWhitespace(submitted.value[|submitted.value| - 1])
  {
    if Trim(topic) != "" && !isLoading then Some(Trim(topic)) else None
  }

  /** The submit button's `disabled` attribute. */
  predicate SubmitDisabled(topic: string, isLoading: bool)
    ensures SubmitDisabled(topic, isLoading) <==> isLoading || IsBlank(topic)
  {
    isLoading || Trim(topic) == ""
  }

  /** The button is disabled exactly when submitting would do nothing. */
  lemma DisabledIffNothingSubmitted(topic: string, isLoading: bool)
    ensures SubmitDisabled(topic, isLoading) <==> Submission(topic, isLoading) == None
  {
  }

  /** What is submitted is its own trim: submitting it again would submit the same text. */
  lemma SubmissionIsTrimmed(topic: string, isLoading: bool)
    requires Submission(topic, isLoading).Some?
    ensures Submission(Submission(topic, isLoading).value, false) == Submission(topic, isLoading)
  {
    TrimIdempotent(topic);
  }
}
