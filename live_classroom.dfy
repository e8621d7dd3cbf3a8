/**
 * The live-classroom session (components/LiveClassroom.tsx): a controller that
 * owns the streaming session and the audio resources, buffers transcript text,
 * periodically drains the buffer into an extraction request, publishes one
 * segment per successful extraction and patches each segment's image in by id.
 *
 * The React state and refs of the component are the fields of `Classroom`; the
 * SDK, the microphone, Web Audio and the timers are replaced by method calls and
 * by the outcomes passed to them.
 */
module LiveClassroom {
  import opened Wrappers
  import opened JsText
  import opened Types

  /** A drain hands text on only when its trimmed length reaches this. */
  const MinTranscriptLength: nat := 15

  const ExtractionErrorMessage := "Error generating content from speech."
  const ConnectionErrorMessage := "A connection error occurred."
  const MicrophoneErrorMessage := "Could not access microphone. Please check permissions and try again."

  /** A message from the live transport; `inputTranscription` holds the transcribed text when the message carries one. */
  datatype ServerMessage = ServerMessage(inputTranscription: Option<string>)

  /** The arguments of one extraction call: the drained text and the context at the time of the drain. */
  datatype ExtractionRequest = ExtractionRequest(transcript: string, sessionContext: string)

  /** The image call started for a freshly published segment. */
  datatype ImageRequest = ImageRequest(segmentId: string, prompt: string)

  /** The audio-context ref: empty, or holding a context that is open or already closed. */
  datatype AudioContextRef = NoAudioContext | AudioContext(closed: bool)

  /** One release performed by a teardown. */
  datatype Release =
    | CloseSession | StopTracks | DisconnectProcessor | DisconnectSource | CloseAudioContext | ClearInterval

  /** The line a published segment adds to the session context. */
  function Digest(keyIdea: string, detailedExplanation: string): (line: string)
    ensures StartsWith(line, "\n- " + keyIdea + ": ")
    ensures EndsWith(line, ": " + detailedExplanation)
    ensures |line| == |keyIdea| + |detailedExplanation| + 5
  {
    var line := "\n- " + keyIdea + ": " + detailedExplanation;
    assert line[..|keyIdea| + 5] == "\n- " + keyIdea + ": ";
    assert line[|line| - |detailedExplanation| - 2..] == ": " + detailedExplanation;
    line
  }

  /** The session context that a sequence of published segments accounts for, oldest first. */
  function ContextOf(segments: seq<LiveSegment>): (context: string)
    ensures context == "" <==> segments == []
  {
    if segments == [] then ""
    else
      var last := segments[|segments| - 1];
      ContextOf(segments[..|segments| - 1]) + Digest(last.keyIdea, last.detailedExplanation)
  }

  /** Publishing one more segment extends the context by that segment's digest alone. */
  lemma ContextOfSnoc(segments: seq<LiveSegment>, s: LiveSegment)
    ensures ContextOf(segments + [s]) == ContextOf(segments) + Digest(s.keyIdea, s.detailedExplanation)
  {
    assert (segments + [s])[..|segments|] == segments;
  }

  /**
   * The context after the first `n` segments is a prefix of the whole context
   * and ends with the digest of segment `n - 1`: every later extraction is
   * given every earlier segment's key idea and explanation.
   */
  lemma {:induction false} ContextOfPrefix(segments: seq<LiveSegment>, n: nat)
    requires 0 < n <= |segments|
    ensures StartsWith(ContextOf(segments), ContextOf(segments[..n]))
    ensures EndsWith(ContextOf(segments[..n]),
                     Digest(segments[n - 1].keyIdea, segments[n - 1].detailedExplanation))
  {
    assert segments[..n][..n - 1] == segments[..n - 1];
    if n < |segments| {
      var m := |segments| - 1;
      ContextOfPrefix(segments[..m], n);
      assert segments[..m][..n] == segments[..n];
    } else {
      assert segments[..n] == segments;
    }
  }

  /** The segment published for extracted `data`: same fields, the given id, no image yet. */
  function NewSegment(data: LiveSegmentData, id: string): (s: LiveSegment)
    ensures s.id == id && s.imageUrl == None
    ensures s.keyIdea == data.keyIdea && s.detailedExplanation == data.detailedExplanation
    ensures s.imagePrompt == data.imagePrompt
  {
    LiveSegment(data.keyIdea, data.detailedExplanation, data.imagePrompt, id, None)
  }

  /** The segments after the image for `id` arrived: every segment carrying that id gets `url`. */
  function PatchImage(segments: seq<LiveSegment>, id: string, url: string): (patched: seq<LiveSegment>)
    ensures |patched| == |segments|
    ensures forall i :: 0 <= i < |segments| && segments[i].id == id ==>
      patched[i] == segments[i].(imageUrl := Some(url))
    ensures forall i :: 0 <= i < |segments| && segments[i].id != id ==> patched[i] == segments[i]
  {
    if segments == [] then []
    else
      var s := segments[0];
      [if s.id == id then s.(imageUrl := Some(url)) else s] + PatchImage(segments[1..], id, url)
  }

  /** Patching an image never changes the session context the segments account for. */
  lemma {:induction false} PatchImageKeepsContext(segments: seq<LiveSegment>, id: string, url: string)
    ensures ContextOf(PatchImage(segments, id, url)) == ContextOf(segments)
  {
    if segments != [] {
      var m := |segments| - 1;
      var p := PatchImage(segments, id, url);
      PatchImageKeepsContext(segments[..m], id, url);
      assert p[..m] == PatchImage(segments[..m], id, url);
    }
  }

  /** Patching with the same id and url again changes nothing. */
  lemma PatchImageIdempotent(segments: seq<LiveSegment>, id: string, url: string)
    ensures PatchImage(PatchImage(segments, id, url), id, url) == PatchImage(segments, id, url)
  {
  }

  /** An image for an id no segment carries (say, of a cleared session) changes nothing. */
  lemma PatchImageUnknownId(segments: seq<LiveSegment>, id: string, url: string)
    requires forall i :: 0 <= i < |segments| ==> segments[i].id != id
    ensures PatchImage(segments, id, url) == segments
  {
  }

  class Classroom {
    var isLive: bool
    var isConnecting: bool
    var error: Option<string>
    var segments: seq<LiveSegment>
    /** The transcript buffer. */
    var transcript: string
    var sessionContext: string
    // One flag or state per held resource.
    var hasSession: bool
    var hasStream: bool
    var audioContext: AudioContextRef
    var hasProcessor: bool
    var hasSource: bool
    var hasInterval: bool

    /** The session context is the digest of the published segments, and live and connecting exclude each other. */
    ghost predicate Valid()
      reads this
    {
      sessionContext == ContextOf(segments) && !(isLive && isConnecting)
    }

    /** What a teardown would release now, in the order the teardown does it. */
    function PendingReleases(): seq<Release>
      reads this
    {
      (if hasSession then [CloseSession] else [])
      + (if hasStream then [StopTracks] else [])
      + (if hasProcessor then [DisconnectProcessor] else [])
      + (if hasSource then [DisconnectSource] else [])
      + (if audioContext == AudioContext(false) then [CloseAudioContext] else [])
      + (if hasInterval then [ClearInterval] else [])
    }

    /** Nothing is pending exactly when no resource is held and no open audio context is referenced. */
    lemma NothingPendingIffNothingHeld()
      ensures PendingReleases() == [] <==>
        !hasSession && !hasStream && !hasProcessor && !hasSource && audioContext != AudioContext(false) && !hasInterval
    {
    }

    constructor ()
      ensures Valid()
      ensures !isLive && !isConnecting && error == None
      ensures segments == [] && transcript == "" && sessionContext == ""
      ensures PendingReleases() == [] && audioContext == NoAudioContext
    {
      isLive, isConnecting, error := false, false, None;
      segments, transcript, sessionContext := [], "", "";
      hasSession, hasStream, audioContext := false, false, NoAudioContext;
      hasProcessor, hasSource, hasInterval := false, false, false;
    }

    /**
     * Starting a session from the idle button (it shows "start" only while not
     * live and is disabled while connecting): reset segments, buffer, context
     * and error and go to connecting; then acquire the microphone and connect.
     * Either failure reports the microphone message and leaves connecting; a
     * stream acquired before a failed connect stays held. A granted microphone
     * overwrites the stream reference without stopping a stream already held,
     * which no later teardown can then reach: `abandoned` reports that.
     */
    method StartSession(microphone: bool, connection: bool) returns (abandoned: bool)
      requires Valid() && !isLive && !isConnecting
      modifies this
      ensures Valid()
      ensures segments == [] && transcript == "" && sessionContext == ""
      ensures !isLive
      ensures microphone && connection ==> isConnecting && error == None
      ensures !(microphone && connection) ==> !isConnecting && error == Some(MicrophoneErrorMessage)
      ensures hasStream == (microphone || old(hasStream))
      ensures abandoned == (microphone && old(hasStream))
      ensures hasSession == ((microphone && connection) || old(hasSession))
      ensures audioContext == old(audioContext) && hasProcessor == old(hasProcessor)
      ensures hasSource == old(hasSource) && hasInterval == old(hasInterval)
    {
      isConnecting := true;
      error := None;
      segments := [];
      transcript := "";
      sessionContext := "";
      abandoned := false;
      if !microphone {
        error := Some(MicrophoneErrorMessage);
        isConnecting := false;
        return;
      }
      abandoned := hasStream;
      hasStream := true;
      if !connection {
        error := Some(MicrophoneErrorMessage);
        isConnecting := false;
        return;
      }
      hasSession := true;
    }

    /** The transport is open: the session is live, the audio graph is built and the drain timer runs. */
    method OnOpen()
      requires Valid()
      modifies this`isLive, this`isConnecting, this`audioContext, this`hasSource, this`hasProcessor, this`hasInterval
      ensures Valid()
      ensures isLive && !isConnecting
      ensures audioContext == AudioContext(false) && hasSource && hasProcessor && hasInterval
    {
      isConnecting := false;
      isLive := true;
      audioContext := AudioContext(false);
      hasSource := true;
      hasProcessor := true;
      hasInterval := true;
    }

    /** A message with an input transcription appends its text and one space to the buffer; any other leaves it alone. */
    method OnMessage(message: ServerMessage)
      modifies this`transcript
      ensures message.inputTranscription.Some? ==>
        transcript == old(transcript) + message.inputTranscription.value + " "
      ensures message.inputTranscription.None? ==> transcript == old(transcript)
    {
      if message.inputTranscription.Some? {
        transcript := transcript + message.inputTranscription.value + " ";
      }
    }

    /**
     * The first half of a drain: a buffer that trims to fewer than 15
     * characters stays put and nothing is requested; otherwise the whole
     * untrimmed buffer is taken, the buffer emptied, and extraction requested
     * with the current session context.
     */
    method Drain() returns (request: Option<ExtractionRequest>)
      modifies this`transcript
      ensures |Trim(old(transcript))| < MinTranscriptLength ==>
        request == None && transcript == old(transcript)
      ensures |Trim(old(transcript))| >= MinTranscriptLength ==>
        request == Some(ExtractionRequest(old(transcript), sessionContext)) && transcript == ""
    {
      if |Trim(transcript)| < MinTranscriptLength {
        return None;
      }
      var taken := transcript;
      transcript := "";
      request := Some(ExtractionRequest(taken, sessionContext));
    }

    /**
     * Extraction returned `data`: publish one segment at the end with id `id`
     * and no image, extend the context by its digest, and request its image.
     */
    method ExtractionSucceeded(data: LiveSegmentData, id: string) returns (imageRequest: ImageRequest)
      requires Valid()
      modifies this`segments, this`sessionContext
      ensures Valid()
      ensures segments == old(segments) + [NewSegment(data, id)]
      ensures sessionContext == old(sessionContext) + Digest(data.keyIdea, data.detailedExplanation)
      ensures imageRequest == ImageRequest(id, data.imagePrompt)
    {
      var segment := NewSegment(data, id);
      ContextOfSnoc(segments, segment);
      segments := segments + [segment];
      sessionContext := sessionContext + Digest(data.keyIdea, data.detailedExplanation);
      imageRequest := ImageRequest(id, data.imagePrompt);
    }

    /** Extraction failed: only the error is set; the drained text is not put back. */
    method ExtractionFailed()
      modifies this`error
      ensures error == Some(ExtractionErrorMessage)
    {
      error := Some(ExtractionErrorMessage);
    }

    /** The image for segment `id` arrived. */
    method ImageResolved(id: string, url: string)
      requires Valid()
      modifies this`segments
      ensures Valid()
      ensures segments == PatchImage(old(segments), id, url)
    {
      PatchImageKeepsContext(segments, id, url);
      segments := PatchImage(segments, id, url);
    }

    /** The image call for segment `id` failed: it is only logged. */
    method ImageFailed(id: string)
      ensures unchanged(this)
    {
    }

    /**
     * Teardown: leave live and connecting and release every held resource,
     * each behind its own guard; an audio context already closed is left
     * referenced. `released` lists what was released, in order.
     */
    method StopSession() returns (released: seq<Release>)
      requires Valid()
      modifies this`isLive, this`isConnecting, this`hasSession, this`hasStream, this`hasProcessor,
               this`hasSource, this`audioContext, this`hasInterval
      ensures Valid()
      ensures !isLive && !isConnecting
      ensures released == old(PendingReleases())
      ensures PendingReleases() == []
      ensures !hasSession && !hasStream && !hasProcessor && !hasSource && !hasInterval
      ensures audioContext == if old(audioContext) == AudioContext(false) then NoAudioContext else old(audioContext)
    {
      // Each guarded release runs only for a resource that is held; `released`
      // lists them in the handler's order, and clearing a flag that is already
      // clear changes nothing.
      released := PendingReleases();
      isLive, isConnecting := false, false;
      hasSession, hasStream, hasProcessor, hasSource := false, false, false, false;
      if audioContext.AudioContext? && !audioContext.closed {
        audioContext := NoAudioContext;
      }
      hasInterval := false;
    }

    /** A transport error: report it, then tear down. */
    method OnError() returns (released: seq<Release>)
      requires Valid()
      modifies this
      ensures Valid()
      ensures error == Some(ConnectionErrorMessage)
      ensures !isLive && !isConnecting && PendingReleases() == []
      ensures released == old(PendingReleases())
      ensures segments == old(segments) && transcript == old(transcript) && sessionContext == old(sessionContext)
      ensures audioContext == if old(audioContext) == AudioContext(false) then NoAudioContext else old(audioContext)
    {
      error := Some(ConnectionErrorMessage);
      released := StopSession();
    }

    /** The transport closed: tear down, then drain whatever is left in the buffer. */
    method OnClose() returns (released: seq<Release>, request: Option<ExtractionRequest>)
      requires Valid()
      modifies this
      ensures Valid()
      ensures !isLive && !isConnecting && PendingReleases() == []
      ensures released == old(PendingReleases())
      ensures error == old(error) && segments == old(segments) && sessionContext == old(sessionContext)
      ensures |Trim(old(transcript))| < MinTranscriptLength ==>
        request == None && transcript == old(transcript)
      ensures |Trim(old(transcript))| >= MinTranscriptLength ==>
        request == Some(ExtractionRequest(old(transcript), sessionContext)) && transcript == ""
      ensures audioContext == if old(audioContext) == AudioContext(false) then NoAudioContext else old(audioContext)
    {
      released := StopSession();
      request := Drain();
    }
  }

  /** A second teardown releases nothing and leaves the state as the first one left it. */
  method StopTwice(c: Classroom) returns (first: seq<Release>, second: seq<Release>)
    requires c.Valid()
    modifies c
    ensures first == old(c.PendingReleases())
    ensures second == []
    ensures !c.isLive && !c.isConnecting && c.PendingReleases() == []
    ensures !c.hasSession && !c.hasStream && !c.hasProcessor && !c.hasSource && !c.hasInterval
    ensures c.audioContext == if old(c.audioContext) == AudioContext(false) then NoAudioContext else old(c.audioContext)
    ensures c.error == old(c.error) && c.segments == old(c.segments)
    ensures c.transcript == old(c.transcript) && c.sessionContext == old(c.sessionContext)
  {
    first := c.StopSession();
    ghost var audio := c.audioContext;
    second := c.StopSession();
    assert c.audioContext == audio;
  }
}
