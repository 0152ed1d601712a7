# Readwise daily highlights: a Dafny model of the rendering core

This system fetches a reader's Readwise highlights and renders them into a
PDF. It mails the PDF to a Kindle address with a dated filename. This project
models the parts of that pipeline that have logic of their own:

- **The pdfkit renderer** (`convertToPdf` in `src/pdf.js`). The document is an
  object (`Pdf.Document`) holding a log of the calls made on it: title
  metadata, font size, font, text and its options, move-down, end. The
  returned promise and its array of `data` chunks are a second object
  (`Pdf.PendingPdf`). It settles once: Pending, then Resolved(bytes) or
  Rejected(error). `Pdf.ConvertToPdf` runs the conversion against both. Its
  contract ties the log to `PdfLayout.Layout`, the command sequence the source
  issues, and the settlement to `PdfStream.Run`, a state machine over the
  stream's events. The lemmas beside them state ordering, counts, defaults,
  styles and error propagation.
- **The legacy Puppeteer renderer's HTML page** (`readwise_emails.js`): the
  string grown by a loop, one fragment per highlight between a fixed prefix
  and suffix, with no escaping.
- **The attachment filename**: `Readwise Daily Highlights - YYYY-MM-DD.pdf`.
  The month is `getMonth() + 1`, and month and day are padded to two digits.
  A parser is proved to be its inverse for four-digit years.
- **The start-up environment check**: four required variables, checked in a
  fixed order. The first one missing or empty stops the run.

Both renderers read a highlight's `title`, `author` and `text`. A missing or
empty title or author becomes `"Untitled"` or `"Unknown Author"`, because
JavaScript's `||` treats `""` as falsy. `Highlights.Highlight` models an
absent or null field as `None`.

Exceptions that pdfkit may throw come from code outside this model, so they
are an input. A `Pdf.Fault(at, error)` makes the call that would issue command
number `at` throw `error`. The stream's `data`, `end` and `error` events are
an input too. They are delivered in order after the synchronous part of the
conversion has run, which is how Node streams deliver them.

The tests and the shipped code disagree. `tests/pdf.test.js:66` expects the
body text with a paragraph gap of 10, and `tests/pdf.test.js:71` expects a
`"Note: …"` line. `src/pdf.js:44-49` always uses a gap of 20 and never writes
the note. The model follows the code. `PdfLayout.LayoutIgnoresNotes` proves
that the note has no influence on the log. No delete link is modelled, since
the code has none.

## Model

| member | source | states |
|---|---|---|
| Highlights.OrElse | readwise_emails.js:50-51 | JS `||` on an optional string gives the value when it is truthy (present and non-empty), the fallback otherwise; the result is empty only when both are |
| Highlights.DisplayTitle | src/pdf.js:33 | the title line is the title when truthy, else "Untitled"; it is never empty |
| Highlights.DisplayAuthor | src/pdf.js:40 | the author line is the author when truthy, else "Unknown Author"; it is never empty |
| PdfLayout.HighlightBlock | src/pdf.js:31-52 | defines one loop iteration's ten calls in source order (16/Helvetica-Bold/underlined title, 12/Helvetica-Oblique/gap-10 author, 12/Helvetica/gap-20 text, moveDown(2)); its contract states the block is ten commands long |
| PdfLayout.Body | src/pdf.js:29-53 | defines the loop's calls: the blocks of the highlights concatenated in input order |
| PdfLayout.Layout | src/pdf.js:26-56 | defines the log of a build that nothing interrupts: the title metadata, the body, then `end` |
| PdfLayout.LayoutShape | src/pdf.js:26-56 | the uninterrupted log has 10 commands per highlight plus 2; the title metadata "Readwise Highlights" is first, `end` is last, and highlight k's ten commands fill positions 1+10k to 1+10(k+1) in input order; empty input gives exactly [title metadata, end] |
| PdfLayout.BodyBlockAt | src/pdf.js:29-53 | order preservation: the k-th highlight's block occupies the k-th ten-command slot of the body |
| PdfLayout.BodyAppend | src/pdf.js:29-53 | rendering a concatenation of highlight lists renders each list in turn |
| PdfLayout.BodyLength | src/pdf.js:29-53 | each highlight contributes exactly ten commands |
| PdfLayout.BlockCounts | src/pdf.js:31-52 | one highlight's block holds exactly three text commands and one move-down, and no title metadata or end |
| PdfLayout.LayoutCounts | src/pdf.js:26-56 | the log holds 3n text commands and n move-downs for n highlights (the last included), and exactly one title metadata and one end |
| PdfLayout.BlockLines | src/pdf.js:31-52 | a highlight's block is its title, author and text lines, each size then font then text, followed by the two-line gap |
| PdfLayout.BodyIsStyled | src/pdf.js:29-53 | within the body, every text command comes right after the size and font of its style |
| PdfLayout.TextIsStyled | src/pdf.js:31-49 | every text command comes right after its size and font: underlined titles after 16 and Helvetica-Bold, gap-10 authors after 12 and Helvetica-Oblique, gap-20 bodies after 12 and Helvetica |
| PdfLayout.LayoutIgnoresNotes | src/pdf.js:29-53 | records that agree on title, author and text give the same log, so notes and ids never reach the document and no note line is written |
| PdfStream.Concat | src/pdf.js:16 | defines `Buffer.concat(chunks)`: the bytes of the chunks joined in order |
| PdfStream.Settle | src/pdf.js:16-22 | defines a one-shot settle: only a pending promise takes the new outcome |
| PdfStream.Step | src/pdf.js:11-23 | defines the effect of one event on the registered handlers: `data` pushes, `end` resolves with the joined chunks, `error` rejects |
| PdfStream.StepEffect | src/pdf.js:11-23 | a `data` event pushes its chunk and leaves the settlement alone; `end` and `error` leave the chunks alone, settle a pending promise with the joined chunks or the error, and change nothing once it has settled |
| PdfStream.Run | src/pdf.js:11-23 | defines the effect of a sequence of events delivered in order |
| PdfStream.ConcatChunkAt | src/pdf.js:16 | the resolved buffer holds the i-th chunk right after all earlier chunks and right before all later ones |
| PdfStream.RunCollectsChunks | src/pdf.js:11 | every data chunk is appended to the buffer in arrival order, settled or not |
| PdfStream.RunSettlesOnce | src/pdf.js:14-23 | once resolved or rejected, no later event changes the promise |
| PdfStream.RunStaysPending | src/pdf.js:14-23 | without an end or error event the promise stays pending |
| PdfStream.FirstTerminalDecides | src/pdf.js:11-23 | the first end or error event decides: end resolves with the concatenation of exactly the chunks that arrived before it; error rejects with that same error |
| Pdf.Building | src/pdf.js:25-56 | defines the synchronous part of the `try` block: the title metadata, then the body and `end` issued call by call under the fault |
| Pdf.Conversion | src/pdf.js:3-62 | defines how the returned promise settles: rejected with the thrown error when the build threw (the `catch`), otherwise by running the stream's events from the fresh pending state |
| Pdf.Emit | src/pdf.js:31-56 | issuing calls in sequence: the call throws exactly when the fault falls within them; without a throw every command is logged; with one, the fault's error is thrown and the log is exactly the calls before the faulty one (its length is the fault's position), so the earlier calls took effect and nothing after it is issued |
| Pdf.BuildingOutcome | src/pdf.js:26-60 | a build that does not throw logs the whole layout; one that throws leaves a proper beginning of the layout that contains no end call, is exactly as long as the fault's position, and carries the fault's error; no fault means no throw |
| Pdf.ThrownRejects | src/pdf.js:57-60 | an exception thrown while building rejects the promise with that same error, whatever the stream emits later |
| Pdf.StreamDecides | src/pdf.js:14-23 | when the build does not throw, the first end resolves with the concatenated earlier chunks and the first error rejects with that error |
| Pdf.Document.constructor | src/pdf.js:7 | a new document has an empty log |
| Pdf.Document.Issue | src/pdf.js:31-52 | one pdfkit drawing call: it throws the fault's error when the fault is at the current position, and otherwise appends its command |
| Pdf.Document.SetInfoTitle | src/pdf.js:26 | setting the title metadata appends it to the log and cannot throw |
| Pdf.Document.FontSize | src/pdf.js:31 | the size call is either logged or throws the fault's error without effect |
| Pdf.Document.Font | src/pdf.js:32 | the font call is either logged or throws the fault's error without effect |
| Pdf.Document.Text | src/pdf.js:33-35 | the text call, with its options, is either logged or throws the fault's error without effect |
| Pdf.Document.MoveDown | src/pdf.js:52 | the move-down call is either logged or throws the fault's error without effect |
| Pdf.Document.End | src/pdf.js:56 | the end call is either logged or throws the fault's error without effect |
| Pdf.PendingPdf.constructor | src/pdf.js:4-8 | a new promise is pending with an empty chunk buffer |
| Pdf.PendingPdf.Resolve | src/pdf.js:16 | resolving changes only a pending promise and leaves the buffer alone |
| Pdf.PendingPdf.Reject | src/pdf.js:22 | rejecting changes only a pending promise and leaves the buffer alone |
| Pdf.PendingPdf.OnData | src/pdf.js:11 | the data handler appends the chunk and leaves the settlement alone |
| Pdf.PendingPdf.OnEnd | src/pdf.js:14-17 | the end handler resolves a pending promise with the buffered chunks joined in order |
| Pdf.PendingPdf.OnError | src/pdf.js:20-23 | the error handler rejects a pending promise with the emitted error |
| Pdf.PendingPdf.Deliver | src/pdf.js:11-23 | each event reaches the handler registered for it, a step of the state machine |
| Pdf.EmitThen | src/pdf.js:31-49 | issuing two runs of calls in turn: the second run is made only when the first did not throw |
| Pdf.WriteLine | src/pdf.js:31-35 | one chained statement issues size, font and text in that order, and stops at the first call that throws |
| Pdf.WriteHighlight | src/pdf.js:30-52 | one loop iteration issues the highlight's ten commands in order and stops at the first call that throws |
| Pdf.Build | src/pdf.js:25-56 | the synchronous part sets the title metadata, writes every highlight in order, then ends, and it stops at the first exception |
| Pdf.DeliverAll | src/pdf.js:11-23 | delivering the stream's events one by one runs the state machine over them |
| Pdf.ConvertToPdf | src/pdf.js:3-62 | the conversion's log is the (possibly interrupted) layout; its settlement is the thrown error if the build threw, else what the stream's events decide |
| LegacyHtml.Fragment | readwise_emails.js:50-52 | defines what one iteration appends: the h2 title (or "Untitled"), the h3 author (or "Unknown Author"), the p text, unescaped |
| LegacyHtml.Page | readwise_emails.js:48-54 | defines the whole page: the body prefix, the fragments in input order, the closing tags |
| LegacyHtml.AppendHighlight | readwise_emails.js:50-52 | one loop iteration appends the highlight's h2 title (or "Untitled"), h3 author (or "Unknown Author") and p text, in that order, to the page string |
| LegacyHtml.BuildHtml | readwise_emails.js:48-54 | the loop builds exactly `Page`: the fixed body prefix, one fragment per highlight in input order, then the closing tags |
| LegacyHtml.PageShape | readwise_emails.js:48-54 | the page starts with the body prefix and ends with `</body></html>`; its length is the frame, 25 markup characters per highlight and the inserted fields; empty input gives prefix then suffix |
| LegacyHtml.FragmentsAppend | readwise_emails.js:49-53 | the fragments of a concatenation are the fragments of each part in turn |
| LegacyHtml.FragmentAt | readwise_emails.js:49-53 | highlight k's h2/h3/p fragment comes after those of the earlier highlights and before those of the later ones |
| LegacyHtml.FragmentsLength | readwise_emails.js:49-53 | the loop adds 25 markup characters per highlight plus the lengths of the inserted fields |
| Filename.NatToString | readwise_emails.js:109-111 | the decimal form of a number is a non-empty string of digits without a leading zero |
| Filename.DecimalOfNatToString | readwise_emails.js:109-111 | the decimal string reads back as the number it came from |
| Filename.IntToString | readwise_emails.js:109-111 | defines `String(i)` for an integer: a minus sign for negatives, then the decimal digits |
| Filename.PadStart | readwise_emails.js:109-110 | padding fills in front of the string up to the width, keeps the string as the tail, and leaves strings at least that long as they are |
| Filename.PadTwoDigits | readwise_emails.js:109-110 | `padStart(2,'0')` turns 1..9 into "0" and the digit and leaves 10..99 unchanged, so months and days always have two characters |
| Filename.FormatDate | readwise_emails.js:109-112 | defines `${yyyy}-${mm}-${dd}`: the full year, the month index plus one and the day, month and day padded to two characters with "0" |
| Filename.AttachmentFilename | readwise_emails.js:115 | defines the attachment name: "Readwise Daily Highlights - ", the formatted date, ".pdf" |
| Filename.ParseFilename | readwise_emails.js:108-115 | defines the inverse reading of a 42-character name with a four-digit year; it is none for any other shape |
| Filename.FilenameRoundTrip | readwise_emails.js:108-115 | for a four-digit year, a month index 0..11 and a day 1..31, the filename is 42 characters long and parses back to the year, the month index plus one, and the day |
| Filename.FilenameInjective | readwise_emails.js:108-115 | different valid dates give different filenames |
| Environment.CheckEnvironment | readwise_emails.js:8-14 | start-up proceeds exactly when all four required variables are present and non-empty; otherwise it aborts and reports the first unset one in the fixed order |

## Left out

- Readwise HTTP fetch (`getHighlights`, `src/readwise.js`): a network call. The highlight list is an input.
- SendGrid delivery (`sendEmailViaSendgrid`, `src/email.js`), including base64 encoding of the attachment: a library call.
- The Express deletion proxy (`src/server.js`): I/O plumbing around an HTTP client call.
- Puppeteer browser launch and PDF rendering (readwise_emails.js:32-46, 56-70), and pdfkit's real byte output: rendering engines. Chunks are opaque byte sequences; fonts and sizes are symbolic.
- `process.exit`, console logging, dotenv loading: process I/O. An abort is the `Environment.Abort` outcome; the exit status 1 is not represented.
- `new Date()` and time zones: the year, zero-based month and day come in as integers.
- A `null` or `undefined` element of `highlights`: src/pdf.js issues `fontSize(16)` and `font('Helvetica-Bold')`, then throws a TypeError when it reads `highlight.title`, and the `catch` rejects with it. `Highlights.Highlight` cannot be null; such an element could only be approximated by a fault at the third call of its block.
- Exceptions thrown by the `PDFDocument` constructor or by `doc.on`, and a non-iterable `highlights` value: the model's exceptions come only from the document's drawing calls. Field values other than strings (numbers, objects) are not modelled, and `text` is always a string.
- Events that fire during the synchronous part of the conversion, rather than after it: they are delivered after the build. The settlement is the same either way unless an exception is thrown as well.
- The note line and per-highlight delete link that the tests expect (tests/pdf.test.js:66, 71): `src/pdf.js` does not implement them.
- Filename.FilenameRoundTrip: covers four-digit years only, because other years give a filename of another length.
