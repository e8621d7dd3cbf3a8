# Live Classroom: a verified model of its front-end logic

The application turns a topic into an illustrated whiteboard, or turns a live
spoken lecture into a running list of illustrated key ideas. Under its React
components sits a small amount of sequential logic. This project models that
logic in Dafny and proves what it promises:

- **The live session** (`LiveClassroom.Classroom`) is a class whose fields are
  the component's state and refs: the `isLive` and `isConnecting` flags, the
  error, the segments, the transcript buffer, the session context, and one
  presence flag per held resource. The resources are the session, the
  microphone stream, the script processor, the stream source, the audio
  context (absent, open or closed) and the drain interval. Each callback and
  each half of the periodic drain is a method. The class invariant says the
  session context is the digest of the published segments, and that the
  session is never live and connecting at once.
- **The explain mode** (`App.ExplainMode`) holds the submit bookkeeping. It
  uses three pure pieces: the sentinel `"error"` that replaces a failed image
  call, the positional merge of image results into whatever content is
  current, and the message shown for a failed text call.
- **The two Markdown exports**:
  - The export loops (`LiveWhiteboard.ExportLiveMarkdown`,
    `Whiteboard.ExportStaticMarkdown`) are proved equal to fold-shaped
    specification functions. The lemmas are about those functions: what the
    export opens with, each block's shape, order, and the left-fold
    decomposition.
  - The static whiteboard's export file names (stem, `.`, extension) are
    modelled, with the stem's whitespace collapsing and lower-casing.
- **The mini Markdown renderer** (`MarkdownRenderer`):
  - Paragraphs come from a newline split and a blank-line filter.
  - `split(/(\*\*.*?\*\*|\*.*?\*)/g)` is a left-to-right scanner. At each
    position it tries the shortest bold match first, then the shortest italic
    match. `.` never crosses a line terminator. The matches are kept as parts.
  - The bold/italic/plain classification follows, with `slice(n, -n)`.
  - The split loses nothing: its text parts hold no match position, and every
    delimited part is exactly the match at its position.
- **The small guards**: the topic submission guard and the disabled state of
  the submit button (`InputForm`), and the cyclic loading message
  (`LoadingSpinner`). The first message is `LoadingMessages[0]` by
  definition, and seven ticks bring any listed message back.

JavaScript string behaviour is modelled in `JsText`:

- The `\s` / `trim` white-space set is the full ECMAScript WhiteSpace and
  LineTerminator set.
- `toLowerCase` is modelled on the Basic Latin letters only.
- `slice` with a negative end is modelled.

Network calls, the microphone, Web Audio, timers and `Date.now()` become
method parameters. Extraction, image generation and the text call are passed
as an outcome: a value or a failure. The segment id is a parameter, and
its uniqueness is not claimed.

Two behaviours of the source are kept as written:

- When the connection fails after the microphone was granted, the microphone
  message is shown and the stream stays held (`StartSession`). A later start
  that is granted the microphone again overwrites the stream reference without
  stopping the held stream, so no teardown releases it; `StartSession`
  reports that stream as abandoned.
- A part that is exactly `**` renders as an empty bold span. A text part that
  is a single `*` renders as an empty italic span: a lone `*` paragraph, or
  the `*` left after a match, as in `**a***`, which splits into `""`, `**a**`
  and `*`. These are the degenerate parts that `RenderTextSource` excludes;
  `***` is excluded too, since it would also render as an empty bold span.

## Model

| member | source | states |
|---|---|---|
| JsText.Trim | components/InputForm.tsx:14-15 | `trim()`: the result is empty exactly when the text is all white space; otherwise it neither starts nor ends with white space; it is the slice of the text after its leading white space |
| JsText.TrimDropsOnlyWhitespace | components/InputForm.tsx:14-15 | everything `trim()` cuts off, before and after the result, is white space |
| JsText.TrimIdempotent | components/InputForm.tsx:15 | trimming a trimmed string changes nothing |
| JsText.Lower | components/Whiteboard.tsx:36 | `toLowerCase()` keeps the length, maps each letter A–Z to its lower case, leaves other characters alone and introduces no white space |
| JsText.LowerIdempotent | components/Whiteboard.tsx:36 | lower-casing twice is lower-casing once |
| JsText.SliceInner | components/MarkdownRenderer.tsx:17 | `slice(start, -n)` is the inner slice when the bounds do not cross and empty when they do |
| Types.ImageLine | components/LiveWhiteboard.tsx:57-59 | the image line is present exactly when the url is present and non-empty, and is then `![alt](url)` and a blank line |
| LiveClassroom.Digest | components/LiveClassroom.tsx:71 | a segment's digest line opens with a newline, `- `, the key idea and `: `, ends with `: ` and the explanation, and holds nothing else |
| LiveClassroom.ContextOf | components/LiveClassroom.tsx:71 | the context is empty exactly when no segment was published |
| LiveClassroom.ContextOfSnoc | components/LiveClassroom.tsx:71 | publishing one more segment extends the context by exactly that segment's `"\n- keyIdea: explanation"` digest |
| LiveClassroom.ContextOfPrefix | components/LiveClassroom.tsx:63-71 | the context after the first n segments is a prefix of the final context and ends with segment n-1's digest |
| LiveClassroom.NewSegment | components/LiveClassroom.tsx:64-67 | a new segment carries the extracted fields, the given id and no image |
| LiveClassroom.PatchImage | components/LiveClassroom.tsx:75 | the image result for an id sets the url on every segment with that id; length, order and every other segment are unchanged |
| LiveClassroom.PatchImageKeepsContext | components/LiveClassroom.tsx:75 | patching an image never changes the context the segments account for |
| LiveClassroom.PatchImageIdempotent | components/LiveClassroom.tsx:75 | applying the same image result twice is applying it once |
| LiveClassroom.PatchImageUnknownId | components/LiveClassroom.tsx:75 | an image for an id no segment carries changes nothing |
| LiveClassroom.Classroom.NothingPendingIffNothingHeld | components/LiveClassroom.tsx:30-53 | a teardown has nothing to release exactly when no session, stream, processor, source or interval is held and no open audio context is referenced |
| LiveClassroom.Classroom.constructor | components/LiveClassroom.tsx:11-24 | the initial state: idle, no error, no segments, empty buffer and context, nothing held |
| LiveClassroom.Classroom.StartSession | components/LiveClassroom.tsx:86-156 | segments, buffer and context are emptied and the error is cleared; with microphone and connection granted it is connecting, otherwise it shows the microphone message and is no longer connecting; the stream stays held whenever the microphone was granted; a stream already held is abandoned exactly when the microphone is granted again |
| LiveClassroom.Classroom.OnOpen | components/LiveClassroom.tsx:102-129 | the transport opened: live, not connecting, open audio context, source, processor and interval held |
| LiveClassroom.Classroom.OnMessage | components/LiveClassroom.tsx:131-134 | a transcription appends its text and exactly one space to the buffer; any other message leaves the buffer as it was |
| LiveClassroom.Classroom.Drain | components/LiveClassroom.tsx:57-60 | a buffer that trims to fewer than 15 characters stays and nothing is requested; otherwise the whole untrimmed buffer is requested with the current context and the buffer is emptied |
| LiveClassroom.Classroom.ExtractionSucceeded | components/LiveClassroom.tsx:63-74 | exactly one segment is appended at the end; the context grows by exactly its digest; its image is requested by id and prompt; the invariant is kept |
| LiveClassroom.Classroom.ExtractionFailed | components/LiveClassroom.tsx:80-83 | only the error changes, to the speech-generation message; the drained text is not restored |
| LiveClassroom.Classroom.ImageResolved | components/LiveClassroom.tsx:74-75 | the segments become their patch by id; the invariant is kept |
| LiveClassroom.Classroom.ImageFailed | components/LiveClassroom.tsx:76-78 | a failed image call changes nothing |
| LiveClassroom.Classroom.StopSession | components/LiveClassroom.tsx:26-54 | not live, not connecting; every resource still referenced is released in the handler's order and nulled; an audio context already closed stays referenced |
| LiveClassroom.Classroom.OnError | components/LiveClassroom.tsx:136-140 | the connection message is shown, then the teardown runs; segments, buffer and context are kept; an open audio context is dropped and a closed one stays |
| LiveClassroom.Classroom.OnClose | components/LiveClassroom.tsx:141-144 | the teardown runs, then a drain of what is left in the buffer, with the same threshold; error, segments and context are kept; an open audio context is dropped and a closed one stays |
| LiveClassroom.StopTwice | components/LiveClassroom.tsx:26-54 | a second teardown releases nothing; afterwards nothing is held, the audio context is what the first teardown left, and error, segments, buffer and context are as before both |
| App.SentinelMap | App.tsx:26-33 | one result per section in section order: the url of a successful call, the sentinel for a failed one |
| App.MergeImages | App.tsx:35-42 | absent content stays absent; title, introduction, section count and order and each section's text are kept; section i gets result i as image unless that is the sentinel or missing |
| App.MergeGivesEachSectionItsOutcome | App.tsx:26-42 | merging a whole batch gives each section exactly the outcome of its own image call |
| App.MergeIdempotent | App.tsx:35-42 | merging the same results twice is merging once |
| App.ImagePrompts | App.tsx:26-27 | one image call per section, with that section's prompt, in section order |
| App.SubmitErrorMessage | App.tsx:45 | the thrown message when non-empty, the default when it is empty; never empty |
| App.ExplainMode.constructor | App.tsx:13-15 | not loading, no error, no content |
| App.ExplainMode.BeginSubmit | App.tsx:18-20 | loading, error cleared, content removed |
| App.ExplainMode.ExplanationReceived | App.tsx:23-27 | the explanation is shown at once, and its image prompts are requested in order |
| App.ExplainMode.ImagesSettled | App.tsx:33-47 | the content becomes the merge of the settled batch into the current content; loading stops |
| App.ExplainMode.ExplanationFailed | App.tsx:44-47 | the error is the thrown message or the default; loading stops |
| App.ExplainMode.HandleTopicSubmit | App.tsx:17-49 | on failure: no content, error shown; on success: no error, content is the explanation merged with the batch, so that each section carries its own call's outcome; loading ends on both paths |
| App.ExplainMode.Reset | App.tsx:51-55 | content and error cleared, not loading |
| LiveWhiteboard.SegmentBlock | components/LiveWhiteboard.tsx:55-60 | a block opens with the key-idea heading and the explanation and ends with `---` and a blank line |
| LiveWhiteboard.SegmentBlockImage | components/LiveWhiteboard.tsx:57-59 | the block holds the image line exactly when the url is present and non-empty |
| LiveWhiteboard.LiveMarkdown | components/LiveWhiteboard.tsx:53 | the notes start with the `# Live Session Notes` header; without segments they are just that |
| LiveWhiteboard.BlocksAppend | components/LiveWhiteboard.tsx:54-61 | the blocks of two runs of segments are the blocks of each in turn |
| LiveWhiteboard.LiveMarkdownSnoc | components/LiveWhiteboard.tsx:53-61 | the export is a left fold: one more segment appends exactly its block |
| LiveWhiteboard.LiveMarkdownInOrder | components/LiveWhiteboard.tsx:54-61 | segment i's block comes after the notes of the segments before it and before the blocks of those after it |
| LiveWhiteboard.ExportLiveMarkdown | components/LiveWhiteboard.tsx:52-63 | the `+=` loop builds exactly the specified notes |
| LiveWhiteboard.ExportButtonsVisible | components/LiveWhiteboard.tsx:75 | the export buttons are shown exactly when the session is not live and the notes hold more than the header |
| LiveWhiteboard.VisibleExportHasBlocks | components/LiveWhiteboard.tsx:75 | when the buttons are offered (not live, some segment), the export holds more than the header |
| Whiteboard.SectionBlockParts | components/Whiteboard.tsx:67-71 | a section block is its heading line and its explanation followed by the `![heading](url)` line when the url is present and non-empty, and by nothing otherwise; no separator follows it |
| Whiteboard.StaticMarkdownOpening | components/Whiteboard.tsx:63-72 | the export starts with the title line and the introduction; without sections that is all of it |
| Whiteboard.SectionBlocksAppend | components/Whiteboard.tsx:66-72 | the blocks of two runs of sections are the blocks of each in turn |
| Whiteboard.StaticMarkdownSnoc | components/Whiteboard.tsx:64-72 | the export is a left fold: one more section appends exactly its block |
| Whiteboard.StaticMarkdownInOrder | components/Whiteboard.tsx:66-72 | section i's block comes right after the blocks of the sections before it |
| Whiteboard.ExportStaticMarkdown | components/Whiteboard.tsx:63-74 | the `+=` loop builds exactly the specified document |
| Whiteboard.CollapseWhitespace | components/Whiteboard.tsx:36 | `replace(/\s+/g, '_')` leaves no white space |
| Whiteboard.CollapseWithoutWhitespace | components/Whiteboard.tsx:36 | text without white space is left as it is |
| Whiteboard.CollapseRun | components/Whiteboard.tsx:36 | a whole maximal run of white space becomes a single `_`, and the text before it is kept |
| Whiteboard.FileStem | components/Whiteboard.tsx:36 | the stem holds no white space |
| Whiteboard.FileStemIdempotent | components/Whiteboard.tsx:36 | deriving a stem from a stem changes nothing |
| Whiteboard.ExportFileName | components/Whiteboard.tsx:73 | each static whiteboard export's file name is the shared stem followed by `.` and the extension, and nothing else; for an extension without white space, such as png, pdf or md, it holds no white space |
| MarkdownRenderer.SplitLines | components/MarkdownRenderer.tsx:33 | `split('\n')` gives at least one piece, and no piece holds a newline |
| MarkdownRenderer.JoinSplitLines | components/MarkdownRenderer.tsx:33 | joining the pieces with newlines gives back the text |
| MarkdownRenderer.KeepNonBlank | components/MarkdownRenderer.tsx:33 | the filter never yields more lines than it was given |
| MarkdownRenderer.KeepNonBlankMembers | components/MarkdownRenderer.tsx:33 | a line is kept exactly when it is one of the lines and does not trim to nothing |
| MarkdownRenderer.KeepNonBlankAppend | components/MarkdownRenderer.tsx:33 | the filter works line by line and keeps the lines' order |
| MarkdownRenderer.Paragraphs | components/MarkdownRenderer.tsx:33 | the paragraphs are exactly the non-blank lines of the text, and none holds a newline |
| MarkdownRenderer.CloseAtIsLazy | components/MarkdownRenderer.tsx:11 | a lazy `.*?` then the closing asterisks: a found close is the first closing run, with no line terminator before it; when none is found, no closing run can be reached without crossing a line terminator |
| MarkdownRenderer.MatchAtAlternatives | components/MarkdownRenderer.tsx:11 | the bold alternative is tried first and wins whenever it matches; otherwise the italic one is tried; no match starts at a character other than `*` |
| MarkdownRenderer.Parts | components/MarkdownRenderer.tsx:11 | the split alternates text and delimited parts, with text first and last |
| MarkdownRenderer.PartsConcat | components/MarkdownRenderer.tsx:11 | joining the parts gives back the paragraph exactly |
| MarkdownRenderer.PartsAreLeftmostMatches | components/MarkdownRenderer.tsx:11 | no position inside a text part starts a match, and each delimited part is exactly the match at its position |
| MarkdownRenderer.RenderPart | components/MarkdownRenderer.tsx:13-28 | `**…**` is bold without two asterisks each side; otherwise `*…*` is italic without one each side; anything else is plain and unchanged |
| MarkdownRenderer.RenderPartSource | components/MarkdownRenderer.tsx:13-28 | rendering drops only delimiters: a part that is not `*`, `**` or `***` is given back by its span |
| MarkdownRenderer.RenderTextSource | components/MarkdownRenderer.tsx:9-29 | the spans of a paragraph without degenerate parts stand for the paragraph itself |
| MarkdownRenderer.RenderText | components/MarkdownRenderer.tsx:9-29 | one span per part of the split, in order, each the rendering of its own part |
| MarkdownRenderer.RenderSource | components/MarkdownRenderer.tsx:33-41 | one sequence of spans per non-blank line, in order; when no part of any paragraph is degenerate, the spans of each sequence give back exactly its line |
| InputForm.Submission | components/InputForm.tsx:12-17 | nothing is submitted while loading or for a blank topic; otherwise the trimmed topic, which is non-empty and without outer white space |
| InputForm.SubmitDisabled | components/InputForm.tsx:32 | the button is disabled exactly while loading or when the topic is all white space |
| InputForm.DisabledIffNothingSubmitted | components/InputForm.tsx:32 | the button is disabled exactly when submitting would do nothing |
| InputForm.SubmissionIsTrimmed | components/InputForm.tsx:15 | what is submitted is its own trim |
| LoadingSpinner.IndexOf | components/LoadingSpinner.tsx:20 | `indexOf`: -1 exactly when absent, otherwise a position holding the message |
| LoadingSpinner.IndexOfIsFirst | components/LoadingSpinner.tsx:20 | no position before the found one holds the message |
| LoadingSpinner.NextIn | components/LoadingSpinner.tsx:19-23 | the next message is in the list, and is the first one for an unknown message |
| LoadingSpinner.NextInAt | components/LoadingSpinner.tsx:21 | in a list without repeats, entry i is followed by entry i+1, wrapping around |
| LoadingSpinner.AdvanceInAdd | components/LoadingSpinner.tsx:19-23 | ticks compose: a ticks then b ticks are a+b ticks |
| LoadingSpinner.AdvanceInAt | components/LoadingSpinner.tsx:21 | n ticks from entry i reach entry i+n, or the first entry exactly when they pass the last |
| LoadingSpinner.AdvanceInFullCycle | components/LoadingSpinner.tsx:21 | in a list without repeats, as many ticks as entries come back to the start |
| LoadingSpinner.LoadingMessagesDistinct | components/LoadingSpinner.tsx:4-12 | the seven messages are distinct |
| LoadingSpinner.NextMessage | components/LoadingSpinner.tsx:19-23 | the next message is always one of the seven |
| LoadingSpinner.NextMessageAt | components/LoadingSpinner.tsx:21 | each message is followed by the next; the last by the first |
| LoadingSpinner.NextOfUnknownIsFirst | components/LoadingSpinner.tsx:20-21 | a message not in the list is followed by the first |
| LoadingSpinner.TicksThroughListReturn | components/LoadingSpinner.tsx:4-23 | seven ticks bring any listed message back |

## Left out

- services/geminiService.ts is not part of this model. The text, extraction and image calls are outcomes passed to the methods. Explanations are taken as they come, including any image urls they may carry.
- Audio capture and encoding are left out: `getUserMedia`, the Web Audio graph, the float-to-16-bit scaling and base64 encoding. These are browser APIs and floating-point arithmetic. Holding them is modelled by presence flags.
- The drain interval and the spinner's 2.5-second interval are left out. Drains and ticks are explicit calls.
- Asynchronous interleaving is left out. That includes overlapping drains, a result arriving after a new session or submission began, and `onopen` firing before `connect` resolves. Each method is one uninterrupted step. `HandleTopicSubmit` is one submission run without interruption.
- Stale-result isolation in the explain mode is not claimed, because the source does none. The merge reads whatever content is current.
- The uniqueness of segment ids is not claimed. The id is a parameter.
- PNG and PDF rendering and the download plumbing are left out: `html2canvas`, `jsPDF`, the DOM anchor and `encodeURIComponent`. The static whiteboard's file names are modelled.
- The live whiteboard's fixed export names `live-session.png`, `live-session.pdf` and `live-session.md` (components/LiveWhiteboard.tsx:32, 47 and 62) are left out: they are constants, with no stem and nothing to prove.
- JSX layout, styling, the mode switch and configuration files are left out.
- The lazy creation of the SDK client at components/LiveClassroom.tsx:97 is left out, because it has no observable state.
- JsText.Lower: lower-cases only the letters A–Z. JavaScript's `toLowerCase` also maps non-ASCII letters, so titles with such letters get a different stem.
- LiveClassroom.Classroom.Drain: the 15-character threshold counts characters (Unicode scalar values). JavaScript's `length` counts UTF-16 code units, so the two differ for text outside the Basic Multilingual Plane. The regular-expression `.` has the same difference.
- LiveClassroom.Classroom.OnMessage: the transcription text is taken as present whenever `inputTranscription` is. A missing text would append the word `undefined` in the source.
- LiveClassroom.Classroom.StopSession: the teardown clears every presence flag unconditionally. This is the same state as the source's guarded clears. The release list records which guards fired.
- LiveClassroom.Classroom.StartSession: a stream it abandons (its `abandoned` result) stays captured for good, because `StopSession` releases only the stream still referenced, as in the source.
