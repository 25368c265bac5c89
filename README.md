# StudioBoom core rules, modelled in Dafny

StudioBoom is a Next.js web application for teachers. Its pages generate
lessons, quizzes, video scripts, document summaries and audio dialogues
with AI services, and export the results. The AI calls, the document
libraries and the Firestore database are outside this model. What it
covers is the self-contained logic around them:

- **Video editor** (`VideoTimeline`, `timeline.dfy`). A class holding the
  page's state: the video track of clips, the active clip, the caption track,
  the playhead and the caption box. Importing a video makes a single clip
  that spans it. Splitting replaces the active clip, in place, by two
  adjacent pieces, with a 0.1 s guard band at either end. Adding a caption
  appends one 3-second overlay, clamped to the video's end. The overlay
  filter and the `m:ss` clock display are functions. The track invariant is
  that the clips tile `[0, span]`, where `span` is the duration they were
  imported for: end to end without gaps, with unique ids, each clip longer
  than the guard band once there are several. It implies the clips are
  sorted without overlaps and that their durations add up to `span`. Every
  method keeps it.
- **Audio dialogue flow** (`AudioDialogue`, `audio_dialogue.dfy`). The guard
  on the summary, the choice of the media field in the speech response,
  data-URL parsing with the mime regex, and the mime-dependent WAV wrap.
- **Quiz export** (`QuizExport`, `quiz_export.dfy`). The form schema, and
  the CSV text the export produces, built by the same loops as the page. A
  CSV reader is included as the partner: the exported text reads back as the
  header and, question by question, the six texts of each row.
- **Course export** (`CourseExport`, `course_export.dfy`). The form schema,
  the Word paragraph mapping (`<br />` split, `**` headings) and the
  PowerPoint slide builder (`**` split, trim, filter, then title/content
  alternation), as a method with its loop.
- **Checkout form** (`Checkout`, `checkout.dfy`). The four payment field
  rules, as predicates equal to their regular expressions. Also the
  fallbacks for the plan and price shown in the order summary.
- **Subscription actions** (`Accounts`, `UserCredits`, `UpdateSubscription`).
  The `users` collection is a class holding a map that the actions update in
  place. `checkAndDeductCredits` is an ordered series of refusals, then free
  access or one Pay-As-You-Go credit taken. `updateSubscription` validates its
  input, classifies the plan name, and overwrites five fields.
- **Summary and script pages** (`SummarizeDocument`, `GenerateScript`). The
  upload and form rules, and each handler's page-state updates around its
  service call. A handler is split at its `await` into a part before the
  call and a part after it; a whole-request method composes the two.

JavaScript built-ins used by these rules are defined once in `JsBuiltins`
(`js_builtins.dfy`):
- `trim` over the ECMAScript white-space set;
- `toLowerCase`;
- `indexOf`, `includes`, `split`, `join`, `slice`, `padStart`;
- UTF-16 `length`, `Math.trunc` and the `%` operator;
- string rendering of integers.

Option and Result types are in `Wrappers`.

Clocks, ids taken from `Date.now()`, the AI services, base64 decoding, the
WAV writer and calendar arithmetic are all parameters of the model.

## Model

A function such as `AudioDialogue.DialogueFlow`, `AudioDialogue.ParseDataUrl`, `UserCredits.Decide`, `VideoTimeline.FormatTime` or `VideoTimeline.VideoEditor.ShownOverlays` whose behaviour is stated by lemmas has no row of its own; the rows of those lemmas cite its source lines.

| member | source | states |
|---|---|---|
| VideoTimeline.VideoEditor.constructor | src/app/edit-video/page.tsx:53-63 | The page starts with no file, no player, no clips, no captions, time 0 and an empty caption box. The track invariant holds. |
| VideoTimeline.VideoEditor.FileChange | src/app/edit-video/page.tsx:66-79 | A chosen file is loaded into the player exactly when its type starts with `video/`. The clips, captions and times are unchanged. |
| VideoTimeline.VideoEditor.LoadedMetadata | src/app/edit-video/page.tsx:81-98 | With a player, the duration is the video's. With a player and a file in the input, the track becomes exactly one clip: start 0, end and duration equal to the video's duration. That clip becomes active. Otherwise the track is unchanged. The track invariant holds afterwards. |
| VideoTimeline.VideoEditor.MovePlayhead | src/app/edit-video/page.tsx:100-122 | The playhead moves only when there is a player; nothing else changes. |
| VideoTimeline.VideoEditor.SelectClip | src/app/edit-video/page.tsx:314 | The clicked clip becomes active; the track and its invariant are kept. |
| VideoTimeline.VideoEditor.SplitActiveClip | src/app/edit-video/page.tsx:131-168 | It is a no-op exactly when there is no player or no active clip, or the playhead is within 0.1 s of either end of the active clip. Otherwise the active clip, found at its index, is replaced there by its two pieces, and the first piece becomes active. The track still tiles the video with unique ids. |
| VideoTimeline.VideoEditor.SplitClip | src/app/edit-video/page.tsx:146-168 | For the active clip at a valid point with a fresh id: the clip is found at its index and replaced there by its two pieces. The first piece becomes active, the track invariant is kept, and nothing else changes. |
| VideoTimeline.FirstPiece | src/app/edit-video/page.tsx:146-151 | The first piece keeps id, start and file; it ends at the split time, with duration split time minus start. |
| VideoTimeline.SecondPiece | src/app/edit-video/page.tsx:153-158 | The second piece has the new id, starts at the split time and keeps the original end and file; its duration is end minus split time. |
| VideoTimeline.Splice | src/app/edit-video/page.tsx:163-164 | `splice(i, 1, p1, p2)`: one element longer, `p1` and `p2` at `i` and `i + 1`, earlier clips unchanged, later clips shifted by one. |
| VideoTimeline.ClipIndex | src/app/edit-video/page.tsx:161 | `findIndex`: the first clip with the id, or -1 when no clip has it. |
| VideoTimeline.FindClipIndex | src/app/edit-video/page.tsx:161 | The search loop returns `ClipIndex`, and a non-negative index exactly when some clip has the id. |
| VideoTimeline.ReplaceClip | src/app/edit-video/page.tsx:160-166 | The state updater returns the list unchanged when no clip has the id. Otherwise it splices the two pieces in at that clip's index. |
| VideoTimeline.ActiveClipIndex | src/app/edit-video/page.tsx:161 | With unique ids, the active clip is found at its own index, so the updater's -1 branch is never taken. |
| VideoTimeline.SplitKeepsTiling | src/app/edit-video/page.tsx:146-166 | A split at a valid point keeps the tiling of the same span. Both pieces are longer than the guard band, and their durations add up to the original's. A fresh id keeps ids unique. |
| VideoTimeline.SplitKeepsTrack | src/app/edit-video/page.tsx:146-168 | Splitting the active clip of a valid track gives a valid track whose active clip is the first piece. |
| VideoTimeline.SplitsKeepPartition | src/app/edit-video/page.tsx:87-166 | From the import clip, any sequence of split requests leaves a gap-free partition of `[0, d]`. It is sorted with no clip overlapping a later one, every clip is longer than the guard band once there are several, and the durations add up to `d`. |
| VideoTimeline.SplitsKeepTiling | src/app/edit-video/page.tsx:146-166 | Any sequence of split requests keeps a tiling of `[0, d]`, and keeps every clip longer than the guard band once there are several. |
| VideoTimeline.SplitExample | src/app/edit-video/page.tsx:137-166 | Import 100 s, split at 40 s, then split the second piece at 70 s: the clips are 0–40, 40–70 and 70–100. A split at 40.05 s, inside the guard band, changes nothing. |
| VideoTimeline.TilesSumDurations | src/app/edit-video/page.tsx:87-94 | The durations of a tiling of `[lo, hi]` add up to `hi - lo`. |
| VideoTimeline.TilesOrdered | src/app/edit-video/page.tsx:146-166 | A tiling by clips of positive length is sorted, and no clip overlaps a later one. |
| VideoTimeline.TrackOrdered | src/app/edit-video/page.tsx:146-166 | A tiling that is one clip, or whose clips all exceed the guard band, is sorted with no overlaps. |
| VideoTimeline.TrackValidOrdered | src/app/edit-video/page.tsx:160-168 | The editor's track, whenever its invariant holds, is sorted with no clip overlapping a later one. |
| VideoTimeline.VideoEditor.AddText | src/app/edit-video/page.tsx:175-192 | It is refused exactly when there is no player or the typed text is blank. Otherwise exactly one caption is appended. It starts at the playhead and ends at `min(playhead + 3, duration)`; its duration is end minus start. Earlier captions are untouched, the text box is cleared and the dialog closes. |
| VideoTimeline.VideoEditor.SetNewText | src/app/edit-video/page.tsx:416 | Typing sets the caption box and nothing else. |
| VideoTimeline.VisibleOverlaysMembers | src/app/edit-video/page.tsx:199-201 | A caption is shown at `t` exactly when it is on the track and `start <= t <= end`, both ends included. |
| VideoTimeline.VisibleOverlaysAppend | src/app/edit-video/page.tsx:199-201 | The filter keeps insertion order: the overlays of `a + b` are those of `a`, then those of `b`. |
| VideoTimeline.FormatTimeShape | src/app/edit-video/page.tsx:124-129 | A non-negative time shows as its whole minutes, a colon, and the remaining whole seconds on two digits. NaN shows as `0:00`. |
| VideoTimeline.FloorDivision | src/app/edit-video/page.tsx:126-127 | `floor(t / 60)` and `floor(t % 60)` are the whole seconds divided by 60 and their remainder. |
| VideoTimeline.TwoDigits | src/app/edit-video/page.tsx:127 | `padStart(2, '0')` of a seconds count below 60 gives its two digits. |
| VideoTimeline.FormatTimeRoundTrip | src/app/edit-video/page.tsx:124-129 | The display of a non-negative time reads back as its whole number of seconds. |
| VideoTimeline.ClockTextRoundTrip | src/app/edit-video/page.tsx:126-128 | An `m:ss` text reads back as the number of seconds it was made from. |
| AudioDialogue.ParseDataUrlSpec | src/ai/flows/generate-audio-dialogue.core.ts:36-41 | Parsing fails with `Invalid data URL` exactly when there is no comma. Otherwise the URL is the comma-free header, a comma and the payload, and the mime type is taken from that header. |
| AudioDialogue.MimeOf | src/ai/flows/generate-audio-dialogue.core.ts:40 | The result is either the header itself, or a non-empty run without `;` that follows `data:` in it. |
| AudioDialogue.MimeOfDataHeader | src/ai/flows/generate-audio-dialogue.core.ts:40 | `data:<mime>` followed by nothing or by `;`-parameters without line breaks yields `<mime>`. |
| AudioDialogue.MimeExampleWithParameters | src/ai/flows/generate-audio-dialogue.core.ts:40 | `data:audio/pcm;rate=<digits>;base64` yields `audio/pcm`. |
| AudioDialogue.MimeExampleEmptyType | src/ai/flows/generate-audio-dialogue.core.ts:40 | `data:;base64` does not match the pattern and is returned whole. |
| AudioDialogue.SelectMedia | src/ai/flows/generate-audio-dialogue.core.ts:96-99 | The only failure is `No audio media returned`; a URL returned is never empty. |
| AudioDialogue.SelectMediaSpec | src/ai/flows/generate-audio-dialogue.core.ts:96-99 | `media ?? output ?? result`, then the first array element, then `url ?? uri ?? data`. A missing or empty URL is refused, and so is an empty array. |
| AudioDialogue.NormalizeAudio | src/ai/flows/generate-audio-dialogue.core.ts:101-108 | A URL without a comma is refused. `audio/pcm` and `audio/x-raw` become `data:audio/wav;base64,` followed by the WAV of the decoded payload: one channel, 24000 Hz, 16 bits. Any other type becomes `data:<mime>;base64,<payload>`, with the payload verbatim. |
| AudioDialogue.NormalizePassThrough | src/ai/flows/generate-audio-dialogue.core.ts:108 | A `data:<mime>;base64,<payload>` URL of any type other than raw PCM comes back unchanged. |
| AudioDialogue.NormalizeUnchangedIff | src/ai/flows/generate-audio-dialogue.core.ts:101-108 | A parsed URL of a type other than raw PCM comes back unchanged exactly when its header is `data:<mime>;base64`. Any other header, such as one with extra parameters, is rewritten. |
| AudioDialogue.NormalizeWrapsPcm | src/ai/flows/generate-audio-dialogue.core.ts:104-106 | A `data:audio/pcm...` URL becomes a WAV data URL whatever its parameters. |
| AudioDialogue.EmptySummarySchema | src/ai/flows/generate-audio-dialogue.core.ts:15-17 | The empty summary is refused by the flow's input schema with the issue `Summary input cannot be empty.`, before the body runs and whatever the services would answer. |
| AudioDialogue.BlankSummaryRefused | src/ai/flows/generate-audio-dialogue.core.ts:73-74 | A blank summary is refused whatever the services would answer. The empty one is refused by the schema; one of white space only is refused by the body, which throws `Summary input cannot be empty.` |
| AudioDialogue.FlowSucceeds | src/ai/flows/generate-audio-dialogue.core.ts:72-108 | A non-blank summary is sent trimmed. With a script and a media URL, the result is that URL normalised, or the normalising step's error thrown by the flow. |
| QuizExport.FormSchemaFacts | src/app/generate-quiz/page.tsx:36-56 | Everything the page accepts, the quiz flow's input schema accepts too. The untouched form is refused. With its other defaults kept, a form is valid exactly when the lesson has at least 50 UTF-16 units. |
| QuizExport.Quote | src/app/generate-quiz/page.tsx:100 | A quoted cell starts and ends with `"`. |
| QuizExport.QuotedCellShape | src/app/generate-quiz/page.tsx:100 | Inside the outer quotes is the text with every `"` doubled, so quotes there come only in adjacent pairs. |
| QuizExport.MatchIndex | src/app/generate-quiz/page.tsx:111 | `findIndex`: the first option equal to the answer after lower-casing and trimming, or -1 when none is. |
| QuizExport.CorrectLetterSpec | src/app/generate-quiz/page.tsx:111-115 | The correct column is `fromCharCode(65 + i)` for the first matching option `i`, counting options past the fourth. With no match it is the raw answer. |
| QuizExport.FirstFourLetters | src/app/generate-quiz/page.tsx:114 | Options 0 to 3 are lettered A to D. |
| QuizExport.OptionCells | src/app/generate-quiz/page.tsx:102-107 | The loop writes the first four options quoted, and leaves empty bare cells for the missing ones. |
| QuizExport.RowCells | src/app/generate-quiz/page.tsx:119 | Every row has six cells. |
| QuizExport.CellValuesSpec | src/app/generate-quiz/page.tsx:100-119 | The six texts of a row: the question, the first four options (empty past the last), and the correct letter. |
| QuizExport.ExportRow | src/app/generate-quiz/page.tsx:100-120 | The row built by the `forEach` body is the six cells of the question, joined by commas. |
| QuizExport.HeaderLine | src/app/generate-quiz/page.tsx:96-97 | The first line is `question,choice_a,choice_b,choice_c,choice_d,correct`. |
| QuizExport.ExportCsv | src/app/generate-quiz/page.tsx:93-123 | With no quiz there is no file. Otherwise the header line and one row per question, in order, joined by `\n` with no final newline. |
| QuizExport.ReadFieldEncoded | src/app/generate-quiz/page.tsx:100-117 | A cell as the exporter writes it reads back as its text, quoted or bare. |
| QuizExport.ExportReadsBack | src/app/generate-quiz/page.tsx:93-123 | The exported file reads back as the header record, then the six texts of each question's row, in order. |
| CourseExport.PromptExamples | src/app/generate-course/page.tsx:32-49 | The untouched empty subject is refused; a ten-character subject is accepted. |
| CourseExport.ParagraphOf | src/app/generate-course/page.tsx:107-114 | A line is a heading exactly when it starts and ends with `**`. The heading text is what lies between the markers, and is empty for `**` and `***`. Any other line is a plain paragraph holding the line verbatim. |
| CourseExport.ParagraphsOf | src/app/generate-course/page.tsx:106 | One paragraph per line, in order. |
| CourseExport.DocxParagraphs | src/app/generate-course/page.tsx:99-106 | There is no document exactly when the lesson is empty. |
| CourseExport.DocxParagraphCount | src/app/generate-course/page.tsx:106 | There is one more paragraph than `<br />` occurrences, and each paragraph is built from its line. |
| CourseExport.ShortHeadings | src/app/generate-course/page.tsx:107-109 | `**` and `***` become empty headings; `**Intro**` becomes the heading `Intro`. |
| CourseExport.DocxRoundTrip | src/app/generate-course/page.tsx:106-114 | Rendering the paragraphs back and joining them with `<br />` restores the lesson, unless a line is `**` or `***`. |
| CourseExport.NonEmptyMembers | src/app/generate-course/page.tsx:145 | The filter keeps exactly the non-empty pieces. |
| CourseExport.SectionsFacts | src/app/generate-course/page.tsx:145 | Every section is the trimmed text of one `**`-separated piece. It is non-empty, with no white space at either end. |
| CourseExport.ExportPptx | src/app/generate-course/page.tsx:137-161 | An empty lesson gives no deck. Otherwise the title slide shows the first section, or `Introduction` when there is none. For `r` later sections there are `1 + ceil(r / 2)` slides. Slide `j + 1` is titled by later section `2j` and holds section `2j + 1`, rewritten for line breaks, when that section exists. |
| CourseExport.BlankSectionsDeck | src/app/generate-course/page.tsx:145-152 | A lesson with no sections gives the single slide `Introduction`. |
| Checkout.PaymentErrors | src/app/checkout/page.tsx:30-35 | Every field is checked. Each message appears exactly when its field breaks its rule, and there are no messages exactly when the form is valid. |
| Checkout.Submit | src/app/checkout/page.tsx:53-57 | A valid form goes to `/confirmation`; any other stays with its non-empty messages. |
| Checkout.DefaultsRefused | src/app/checkout/page.tsx:43-51 | The untouched form reports all four messages and cannot be submitted. |
| Checkout.ExpiryMeaning | src/app/checkout/page.tsx:33 | An expiry is valid exactly when it is two digits, `/`, two digits, with the first two reading as a month from 1 to 12. |
| Checkout.ExpiryFormat | src/app/checkout/page.tsx:33 | A zero-padded `MM/YY` is accepted exactly when the month is 1 to 12, for any year. |
| Checkout.ExpiryExamples | src/app/checkout/page.tsx:33 | `00/25`, `13/25` and `1/25` are refused; `01/25` and `12/99` are accepted. |
| Checkout.FieldExamples | src/app/checkout/page.tsx:31-34 | A card number with spaces, or of 15 digits, is refused. The CVC takes 3 or 4 digits only. The name takes at least 2 UTF-16 units, which one emoji already makes. |
| Checkout.OrFallback | src/app/checkout/page.tsx:40-41 | `value \|\| fallback`: the fallback for a missing or empty value, otherwise the value. |
| Checkout.SummaryLabels | src/app/checkout/page.tsx:40-41 | The plan shows `Non sélectionné` and the price `0` when missing or empty. Given values show verbatim, and the label is never empty. |
| UserCredits.CheckAndDeductCredits | src/lib/actions/user-credits.ts:12-49 | An empty id is refused before any read. A failed read (`getDoc`) rejects with Firestore's error. After a successful read, a refusal or free access writes nothing and returns its outcome. A charge rejects with Firestore's error if the write (`updateDoc`) fails, leaving the collection unchanged; otherwise it succeeds with the one credit taken. With both calls succeeding, it fails exactly on a refusal, with its message. |
| UserCredits.DecideOutcomes | src/lib/actions/user-credits.ts:13-44 | Each outcome is stated as a condition on its own: not signed in; no such user; no active subscription; expired (strictly before now) on a time-limited plan; free access; no credits left; one credit charged. |
| UserCredits.Deducted | src/lib/actions/user-credits.ts:46-49 | The charge lowers the credit count by exactly one, reading a missing count as 0. The rest of the document is kept. |
| UserCredits.CheckChanges | src/lib/actions/user-credits.ts:32-49 | A refusal or free access writes nothing. A charge takes one credit from that user and changes nothing else in any document. |
| UserCredits.CheckKeepsCreditsNonNegative | src/lib/actions/user-credits.ts:41-49 | If no credit count is negative before a check, none is after it. |
| UserCredits.CreditsLastExactly | src/lib/actions/user-credits.ts:41-49 | With `n` credits on an active Pay-As-You-Go plan, exactly `n` checks in a row are charged, and the next one is refused. |
| UserCredits.ExpiryIsStrict | src/lib/actions/user-credits.ts:33 | A plan ending at this very instant still grants access; one that ended a millisecond ago does not. |
| UpdateSubscription.InputIssues | src/lib/actions/update-subscription.ts:8-11 | An issue is reported for each empty field, and none exactly when both are non-empty. |
| UpdateSubscription.ErrorText | src/lib/actions/update-subscription.ts:16-58 | The error for refused input starts with `Invalid input: `. The error for a failed write is exactly `Could not update subscription in Firestore.` |
| UpdateSubscription.EndOffsetCases | src/lib/actions/update-subscription.ts:25-43 | Each offset is stated as a condition: 7 days for a trial, then 1, 3 or 6 months, 1 year, or none. An offset is chosen when its word occurs in the lower-cased name and no earlier word does. |
| UpdateSubscription.TrialComesFirst | src/lib/actions/update-subscription.ts:29-30 | A name mentioning a free trial gets 7 days, whatever else it mentions. |
| UpdateSubscription.FreeTrialAnywhere | src/lib/actions/update-subscription.ts:25-31 | `Essai Gratuit` anywhere in the name (for example `Mensuel (Essai Gratuit)`) makes a trial of 7 days, not a month. |
| UpdateSubscription.MonthlyPlan | src/lib/actions/update-subscription.ts:31-32 | `Mensuel` is one month and not a trial. |
| UpdateSubscription.QuarterlyPlan | src/lib/actions/update-subscription.ts:33-34 | `Trimestriel` is three months. |
| UpdateSubscription.HalfYearPlan | src/lib/actions/update-subscription.ts:35-36 | `Semestriel` is six months. |
| UpdateSubscription.YearlyPlan | src/lib/actions/update-subscription.ts:37-38 | `Annuel` is one year. |
| UpdateSubscription.NoEndDateWithoutE | src/lib/actions/update-subscription.ts:39-41 | Every word tested holds an `e`, so a name with no `e` in either case has no end date and is no trial. |
| UpdateSubscription.PayAsYouGoPlan | src/lib/actions/update-subscription.ts:39-41 | `Pay-As-You-Go` has no end date and is no trial. |
| UpdateSubscription.RenewedFields | src/lib/actions/update-subscription.ts:45-51 | The write sets the plan, `active`, the trial flag, the server's start time and the end date. The trial flag is set exactly when the offset is 7 days, and the end date is absent exactly when there is no offset. The credit count is kept. |
| UpdateSubscription.Update | src/lib/actions/update-subscription.ts:13-58 | Refused input writes nothing and reports its issues. A missing user or a failed write writes nothing and reports the write error. Otherwise exactly the renewed subscription is stored for that user. |
| UpdateSubscription.AccessAfterUpdate | src/lib/actions/update-subscription.ts:45-51 | Right after an update, the access check grants a time-limited plan free until its end date and refuses it afterwards. A plan without an end date never expires. Pay-As-You-Go charges exactly when the credits the user already had are at least one. |
| SummarizeDocument.UploadIssues | src/app/summarize-document/page.tsx:28-37 | All three refinements run. Each message appears exactly when its rule fails: one file, at most 5 MiB, an accepted type. |
| SummarizeDocument.ShownIssue | src/app/summarize-document/page.tsx:28-37 | The field shows the first failing rule's message, and nothing exactly when all pass. |
| SummarizeDocument.UploadAccepted | src/app/summarize-document/page.tsx:25-36 | An upload is accepted exactly when it is one file of at most 5242880 bytes whose type is exactly `application/pdf` or `text/plain`. |
| SummarizeDocument.NothingChosen | src/app/summarize-document/page.tsx:31-36 | With no file, all three rules fail and the first message is shown. |
| SummarizeDocument.UploadExamples | src/app/summarize-document/page.tsx:25-36 | 5242880 bytes are accepted and 5242881 refused. `application/PDF` and `image/png` are refused, and so are two files. |
| SummarizeDocument.SummarizePage.constructor | src/app/summarize-document/page.tsx:49-55 | Nothing is loading and there are no results. |
| SummarizeDocument.SummarizePage.BeginSubmit | src/app/summarize-document/page.tsx:63-67 | Loading starts, and the summary and both audio results are cleared. |
| SummarizeDocument.SummarizePage.FinishSubmit | src/app/summarize-document/page.tsx:70-84 | On success, the summary and the file name are set. On failure, nothing new is set. Loading ends either way. |
| SummarizeDocument.SummarizePage.Submit | src/app/summarize-document/page.tsx:63-85 | A refused upload changes nothing and reports its issues. An accepted one ends with loading off and no stale audio. The summary is the new one, or empty after a failure. |
| SummarizeDocument.SummarizePage.BeginAudio | src/app/summarize-document/page.tsx:87-90 | It starts exactly when the summary is not blank, and then clears the previous audio. |
| SummarizeDocument.SummarizePage.FinishAudio | src/app/summarize-document/page.tsx:91-107 | On success the audio is set; loading ends either way. |
| SummarizeDocument.SummarizePage.GenerateAudio | src/app/summarize-document/page.tsx:87-108 | A blank summary changes nothing. Otherwise the audio is exactly the service's answer, none after a failure, and loading is off. |
| SummarizeDocument.SummarizePage.BeginDialogue | src/app/summarize-document/page.tsx:110-113 | It starts exactly when the summary is not blank, and then clears the previous dialogue. |
| SummarizeDocument.SummarizePage.FinishDialogue | src/app/summarize-document/page.tsx:114-130 | On success the dialogue is set; loading ends either way. |
| SummarizeDocument.SummarizePage.GenerateDialogue | src/app/summarize-document/page.tsx:110-131 | A blank summary changes nothing. Otherwise the dialogue is exactly the service's answer, none after a failure, and loading is off. |
| GenerateScript.DefaultsExamples | src/app/generate-script/page.tsx:37-41 | The default audience and length pass their rules; the empty default topic does not, so the untouched form is refused. |
| GenerateScript.DefaultAudience | src/app/generate-script/page.tsx:39 | `Élèves de primaire` has at least 5 units. |
| GenerateScript.DefaultLength | src/app/generate-script/page.tsx:40 | 5 minutes is a whole number from 1 to 60. |
| GenerateScript.TopicCompletesDefaults | src/app/generate-script/page.tsx:24-41 | With the other defaults kept, the form is valid exactly when the typed topic is. |
| GenerateScript.ScriptIssues | src/app/generate-script/page.tsx:24-27 | The topic and audience messages each appear exactly when their rule fails. The form is valid exactly when there are none and the length rule holds. |
| GenerateScript.BoundaryExamples | src/app/generate-script/page.tsx:25-27 | Topics of 0 and 9 characters are refused; topics of 10 and 60 are accepted. Lengths 0, 61, 2.5 and NaN are refused; 1 and 60 are accepted. |
| GenerateScript.ScriptPage.constructor | src/app/generate-script/page.tsx:31-32 | Not loading, no script. |
| GenerateScript.ScriptPage.BeginSubmit | src/app/generate-script/page.tsx:44-46 | Loading starts and the previous script is cleared. |
| GenerateScript.ScriptPage.FinishSubmit | src/app/generate-script/page.tsx:47-59 | The new script on success; loading ends on both outcomes. |
| GenerateScript.ScriptPage.Submit | src/app/generate-script/page.tsx:44-60 | An invalid form changes nothing. A valid one ends not loading, with the new script, or none after a failure. |

## Left out

- Rendering, toasts, dialogs, play and pause, and the timeline's pixel geometry are not modelled. The model keeps only the state the handlers change.
- The editor's image overlays, voice-over recording and video export are disabled buttons, and the export route returns 501. There is no behaviour to model.
- Ids from `Date.now()` are parameters. A split's second piece must get an id no clip already carries, so a clock collision is not modelled. Caption ids are not constrained.
- `videoRef.current` is modelled as "a player exists", which holds exactly when the page has a video source. The file read back from the DOM input is the `inputFile` field.
- With a player but no file in the input, a metadata event sets the duration and keeps the track (src/app/edit-video/page.tsx:82-96). The track invariant is therefore stated over `span`, the duration the clips were imported for, which can then differ from `duration`.
- The flow framework's wording around an input-schema refusal is not modelled. `AudioDialogue.DialogueFlow` keeps only the schema's issue messages, as `InvalidInput`.
- Times are real numbers, not IEEE doubles. Adding 3 s to a caption's start and the 0.1 s guard band are exact.
- VideoTimeline.FormatTimeShape: negative times are not covered. The player never reports one.
- PDF, DOCX and PPTX generation, downloads, and the quiz share link (JSON, base64 and URL encoding) are left out. The model stops at the paragraphs, slides and CSV text handed to those libraries.
- The `<br />` rewrite inside a slide's text box uses a regular expression whose literal, as written, is ambiguous. It is the parameter `breaks` of `CourseExport.ExportPptx`.
- `toLowerCase` is modelled on ASCII letters only. The full Unicode mapping (for example `É` to `é`) is not modelled, so a plan name like `ESSAI GRATUIT` is recognised but `ÉSSAI` is not lowered.
- `trim` uses the exact ECMAScript white-space and line-terminator set.
- `String.fromCharCode` of a lone surrogate gives U+FFFD here, because a Dafny `char` cannot hold one. Real matches are at most a few options from 65 (`A`), far from the surrogate range.
- `z.coerce.number()` is not modelled: the number fields are taken after coercion, as a JS number or NaN.
- The rendering of Zod's issue list after `Invalid input: ` is the parameter `render` of `UpdateSubscription.ErrorText`.
- The AI services (lesson, quiz, script, summary, dialogue prompt and text-to-speech) are function parameters, or an `Option` outcome where a page awaits them. A service that throws is modelled as a missing answer (the dialogue flow's prompt gives `None`, and text-to-speech is total), so the service's own error message is not kept; the summary page shows one fixed message for any failure of the dialogue flow (src/app/summarize-document/page.tsx:121-127).
- Reading a file as a data URI, base64 decoding and the WAV writer are parameters. The WAV header bytes are not modelled; only the format handed to the writer is.
- The older audio flows in `generate-audio-dialogue.ts`, `generate-audio-summary.ts` and `generate-summary-audio.ts` are not part of this model. They extract the payload leniently and wrap every type as WAV.
- Firestore is a map held by `Accounts.UserStore`. Whether a write succeeds is the parameter `writeSucceeds` of `UpdateSubscription.Update`; a write to a user without a document fails as well. In `UserCredits.CheckAndDeductCredits`, a failed read or write is the parameter `readFailure` or `writeFailure`, holding Firestore's error message, which is not modelled further.
- GenerateScript.ScriptIssues: the messages zod gives for a failed length rule (`int`, `min(1)`, `max(60)`) are the library's own and are not kept; only whether the rule holds is.
- The read-then-decrement in `checkAndDeductCredits` is not atomic. Two concurrent checks can both pass on one credit, and this race is not modelled: checks are sequential.
- Clock readings (`new Date()`, `serverTimestamp()`) and calendar arithmetic (`setDate`, `setMonth`, `setFullYear`) are parameters. The end date is the parameter `shift` applied to an `Offset` of days, months or years.
- UserCredits.Deducted: a stored credit count that is not a whole number, such as a string or a fraction, is not modelled. Credits are integers, and a missing count reads as 0 through `|| 0`.
- The premium gating on the quiz and course pages reads a flag the auth context never provides, so it is not modelled as a working rule.

## Notes on the code

- The editor re-imports on every metadata event. One might expect a second import to be refused with an `AlreadyImported` error; the code has none, and the model follows the code.
- One might expect a non-PCM data URL to pass through byte for byte. The code rebuilds it as `data:<mime>;base64,<payload>`, which is the input only when the header was exactly `data:<mime>;base64`. `AudioDialogue.NormalizePassThrough` proves that case, and `AudioDialogue.NormalizeUnchangedIff` proves it is the only one.
- A split is allowed exactly when `start + 0.1 < t < end - 0.1`. The code refuses `t <= start + 0.1` or `t >= end - 0.1`, which is the same condition. The pieces of a split are therefore longer than 0.1 s, but the first clip made at import may be shorter.
- The subscription page sells "Acheter 10 crédits" as the plan `Pay-As-You-Go` (src/app/subscribe/page.tsx:129). `updateSubscription` writes no credit count (src/lib/actions/update-subscription.ts:45-51). `UpdateSubscription.AccessAfterUpdate` shows that after such a purchase the access check only spends credits the user already had: a user with none is refused. Nothing in the repository's core adds the ten credits.
