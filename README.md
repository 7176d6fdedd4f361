# Meeting summarizer: the browser form and the Flask routes

The system is a small web application. A user uploads a meeting transcript
(.txt, .pdf or .docx), types or picks a prompt, and asks the server for a
summary. The server reads the file, wraps it in a fixed instruction, asks a
chat-completion model for a summary and returns it stripped of surrounding
whitespace. The user can then edit the summary and mail it to a
comma-separated list of recipients. The summary is kept in the browser's
local storage, so a reload brings it back.

This project models two parts. One is the React component
`frontend/src/App.jsx`: its state cells, the generate and send handlers with
their checks, the effect that mirrors the summary into storage, and the
preview toggle. The other is the request logic of the three Flask routes in
`app.py`.

Files:

- `wrappers.dfy`: `Option` and `Result`.
- `text.dfy` (module `Text`): the string built-ins both sides rely on.
  - ASCII lower-casing.
  - `split` on one character and `join`, with their round trips.
  - `split(sep).pop()`.
  - Prefix and suffix tests.
  - Stripping whitespace from both ends. This is parameterised by the
    whitespace set: JavaScript's `trim`/`\s` set or Python's `isspace`.
- `frontend.dfy` (module `Frontend`): the component, in two layers.
  - A value layer: a `Form` record of the state cells plus the storage cell.
    Each handler is a function `Form × Outcome → Step`. A `Step` holds the new
    form and the ordered effects the handler issues: state setters, the
    request and the notification.
  - A `class App` whose methods set the fields one after another, as the
    handlers do. Each method is proved to produce exactly the step function's
    state and effects.
  - The server's reply, or the failure of the request, is the `Outcome`
    parameter.
- `backend.dfy` (module `Backend`): `generate_summary`, `send_email` and
  `serve` as pure functions from a request to `Response(status, body)`.
  - The libraries they call are function-valued parameters that can fail with
    the exception's text: UTF-8 decoding, PyPDF2 page text, python-docx
    paragraphs, the Groq completion and SMTP delivery.
- `interplay.dfy` (module `Interplay`): lemmas about the client and the server
  together.
  - What the client's checks guarantee about the request the server receives.
  - Where the two extension tests disagree.
  - How the client reads each kind of server answer.

Two behaviours of the source are stated and proved rather than corrected:

- **Extension tests disagree on dotless names.** The client's check takes the
  text after the last dot, or the whole name when it has no dot. So a file
  named `TXT` passes the client and is refused by the server, which asks for
  the suffix `.txt` (`Interplay.ClientOnlyAcceptsBareExtensions`,
  `Interplay.DotlessNameRejectedByServer`).
- **An empty error reply counts as success.** The client tests `data.error`
  for truthiness. A server error whose exception text is empty is therefore
  shown as a successful generation with an empty summary
  (`Frontend.EmptyErrorReplyCountsAsSuccess`,
  `Interplay.EmptyServerErrorLooksLikeSuccess`).

JavaScript's `undefined` (the `summary` field of a reply without one) is
modelled as the empty string. Every place the component uses it treats it
exactly like `""`: the truthiness tests, the storage effect and the text area.

## Model

| member | source | states |
|---|---|---|
| `Text.Split` | app.py:73 | `split` on one character: at least one piece and no piece holds the separator; its round trips are `Text.JoinSplit` and `Text.SplitJoin`, its count `Text.SplitCount` |
| `Frontend.Ext` | frontend/src/App.jsx:40 | defines the extension as the last dot-separated segment of the lower-cased name; characterised by `Frontend.ExtIsTextAfterLastDot` |
| `Frontend.EmailLike` | frontend/src/App.jsx:72 | defines the address test by positions of `@` and `.`; proved equal to the regular-expression search by `Frontend.EmailLikeIsRegexTest` |
| `Frontend.Entries` | frontend/src/App.jsx:71 | defines the trimmed comma-separated entries; `Frontend.EmailLikeIgnoresTrim` shows the trimming never changes a verdict |
| `Frontend.RecipientsWellFormed` | frontend/src/App.jsx:72 | defines the negation of the `some` check; `Frontend.RecipientsCheckOnRawPieces`, `Frontend.BlankEntryRejected` and `Frontend.TrailingCommaRejected` state its properties |
| `Frontend.Persist` | frontend/src/App.jsx:31-33 | defines the storage effect; `Frontend.PersistWritesOnlyStorage` states its frame |
| `Frontend.Thrown` | frontend/src/App.jsx:55 | defines which outcomes reach `catch` and with what message, an empty error field not among them; used by `Frontend.EmptyErrorReplyCountsAsSuccess` |
| `Frontend.ReplySummary` | frontend/src/App.jsx:56 | defines the summary a reply sets, empty when the reply has none; stated by `Frontend.GenerateStepState` |
| `Frontend.GenerateStep` | frontend/src/App.jsx:35-64 | defines `handleGenerate` on a form and an outcome; its state is stated by `Frontend.GenerateStepState`, its effects by `Frontend.GenerateTrace`, and `Frontend.App.Generate` is proved to reach it |
| `Frontend.GenerateAttempt` | frontend/src/App.jsx:46-63 | defines the try/catch/finally part of `handleGenerate`; stated by `Frontend.GenerateStepState` and `Frontend.GenerateTrace` |
| `Frontend.SendStep` | frontend/src/App.jsx:66-94 | defines `handleSend` on a form and an outcome; its state is stated by `Frontend.SendStepState`, its effects by `Frontend.SendTrace`, and `Frontend.App.Send` is proved to reach it |
| `Frontend.SendAttempt` | frontend/src/App.jsx:77-93 | defines the try/catch/finally part of `handleSend`; stated by `Frontend.SendStepState` and `Frontend.SendTrace` |
| `Backend.Accepted` | app.py:26 | defines the suffix test on the lower-cased name; related to the client's test by `Interplay.ServerAcceptedPassesClient` and `Interplay.ClientOnlyAcceptsBareExtensions` |
| `Backend.NonEmpty` | app.py:34 | defines the `if page.extract_text()` filter; stated by `Backend.NonEmptyKeepsOnlyText`, `Backend.NonEmptyAppend` and `Backend.NonEmptyKeepsTextPages` |
| `Backend.ReadTranscript` | app.py:30-37 | defines the three reading branches; stated by `Backend.PdfTranscript`, `Backend.BlankPageSkipped` and, through `Backend.GenerateSucceeds` and `Backend.GenerateFails`, by what the route answers |
| `Text.LastSegment` | frontend/src/App.jsx:40 | defines `split(sep).pop()`; characterised by `Text.LastSegmentIsSuffix`, `Text.LastSegmentWithoutSeparator` and `Text.LastSegmentAfterSeparator` |
| `Frontend.ExtensionAllowed` | frontend/src/App.jsx:41 | defines the `includes` test of the extension against `txt`, `pdf` and `docx`; compared with the server's test by `Interplay.ClientOnlyAcceptsBareExtensions` |
| `Frontend.GenerateRejection` | frontend/src/App.jsx:36-44 | defines the two checks of `handleGenerate`, missing input first; their order and messages are stated by `Frontend.GenerateStepState` |
| `Frontend.SendRejection` | frontend/src/App.jsx:67-75 | defines the two checks of `handleSend`, missing input first; their order and messages are stated by `Frontend.SendStepState` |
| `Backend.HasFields` | app.py:21 | defines the presence test of the file part and the prompt field; stated by `Backend.GenerateSummary` |
| `Backend.Truthy` | app.py:59 | defines Python truthiness of a JSON string value; stated by `Backend.SendEmail` |
| `Interplay.SummaryRequestOf` | frontend/src/App.jsx:48-53 | defines the multipart request the client posts; `Interplay.ClientCheckedGenerateOnServer` states what the server makes of it |
| `Text.LowerChar` | frontend/src/App.jsx:40 | lower-casing of one character, on the ASCII letters only (see Left out); `Text.LowerCharKeepsPunctuation` shows it never creates or removes a separator |
| `Text.ToLower` | app.py:25 | `toLowerCase()` and `lower()`, character by character with `Text.LowerChar`; `Frontend.ToLowerKeepsSeparator` shows the dots stay where they were |
| `Text.IsJsSpace` | frontend/src/App.jsx:72 | ECMAScript WhiteSpace and LineTerminator: the set `\s` matches (so `\S` is its complement) and `trim()` removes |
| `Text.IsPySpace` | app.py:48 | the characters for which Python's `str.isspace` holds: what `strip()` with no argument removes |
| `Text.StripStart` | frontend/src/App.jsx:71 | drops the leading whitespace: the result is a suffix of the input, everything dropped is whitespace, and the result does not start with whitespace |
| `Text.StripEnd` | frontend/src/App.jsx:71 | drops the trailing whitespace: the result is a prefix of the input, everything dropped is whitespace, and the result does not end with whitespace |
| `Text.Strip` | app.py:48 | whitespace removed from both ends for a given whitespace set; stated by `Text.StripIsSlice` and `Text.StripIdempotent` |
| `Text.JsTrim` | frontend/src/App.jsx:71 | `String.prototype.trim`: `Text.Strip` over `Text.IsJsSpace`; `Frontend.EmailLikeIgnoresTrim` shows it never changes an address verdict |
| `Text.PyStrip` | app.py:48 | `str.strip()`: `Text.Strip` over `Text.IsPySpace`; `Backend.GenerateSummary` states that a 200's summary is already stripped |
| `Text.Join` | app.py:34 | `sep.join(parts)` (the newline joins of app.py lines 34 and 37 and the comma join of the recipients); `Text.JoinSplit` and `Text.SplitJoin` state it inverts `Text.Split` |
| `Text.StartsWith` | app.py:83 | `startswith`: the prefix of the prefix's length equals it; used by `Backend.ApiPath`, whose properties `Backend.ApiPrefixesNotFound` and `Backend.PagePaths` state |
| `Text.EndsWith` | app.py:26 | `endswith`: the suffix of the suffix's length equals it; `Backend.SuffixesExclusive` and `Backend.Dispatch` state the branches it selects at app.py lines 30-35 |
| `Frontend.Attempt` | frontend/src/App.jsx:46-63 | the trace shape of a handler whose checks passed, shared by lines 46-63 and 77-93; `Frontend.AttemptTrace` states its order, its single request and its single notification |
| `Frontend.App.SetLoading` | frontend/src/App.jsx:46 | `setLoading`: the loading cell takes the value and the log records the call |
| `Frontend.App.SetError` | frontend/src/App.jsx:47 | `setError`: the error cell takes the message and the log records the call |
| `Frontend.App.Post` | frontend/src/App.jsx:53 | `fetch`: the log records the request, and no state cell changes |
| `Frontend.App.Notify` | frontend/src/App.jsx:57 | `toast.success` / `toast.error`: the log records the notification, and no state cell changes |
| `Backend.ApiPath` | app.py:83 | defines the prefix test of the catch-all route; stated by `Backend.Serve`, `Backend.ApiPrefixesNotFound` and `Backend.PagePaths` |
| `Text.SplitCount` | frontend/src/App.jsx:71 | `split(',')` yields one more piece than there are commas |
| `Text.JoinSplit` | app.py:73 | joining the pieces of a split with the separator gives the string back |
| `Text.SplitJoin` | app.py:73 | splitting a join of separator-free parts gives the parts back |
| `Text.LastSegmentIsSuffix` | frontend/src/App.jsx:40 | `split(sep).pop()` is the longest separator-free suffix: separator-free, a suffix, and preceded by the separator when shorter than the string |
| `Text.LastSegmentWithoutSeparator` | frontend/src/App.jsx:40 | a string without the separator is its own last segment |
| `Text.LastSegmentAfterSeparator` | frontend/src/App.jsx:40 | a string ending in the separator followed by separator-free `e` has last segment `e` |
| `Text.LowerCharKeepsPunctuation` | frontend/src/App.jsx:40 | lower-casing maps a character to a non-letter separator only if it already was that separator |
| `Text.StripIsSlice` | frontend/src/App.jsx:71 | `trim()` returns a contiguous slice of the input with only whitespace before and after it |
| `Text.StripIdempotent` | app.py:48 | the stripped text begins and ends with non-whitespace, and stripping it again changes nothing |
| `Frontend.ToLowerKeepsSeparator` | frontend/src/App.jsx:40 | the lower-cased name contains '.' exactly when the name does |
| `Frontend.ExtIsTextAfterLastDot` | frontend/src/App.jsx:40 | the extension is dot-free, ends the lower-cased name, and is preceded there by a dot unless it is the whole name; a dotless name is its own extension |
| `Frontend.EmailLikeIsRegexTest` | frontend/src/App.jsx:72 | the address test equals an unanchored search for `\S+@\S+\.\S+` at any start and end position |
| `Frontend.EmailLikeIgnoresTrim` | frontend/src/App.jsx:71-72 | trimming an entry does not change whether it passes the address test |
| `Frontend.RecipientsCheckOnRawPieces` | frontend/src/App.jsx:71-72 | the list check passes iff every raw comma-separated piece passes the address test |
| `Frontend.BlankEntryRejected` | frontend/src/App.jsx:71-72 | a piece that is empty or all whitespace makes the list fail |
| `Frontend.TrailingCommaRejected` | frontend/src/App.jsx:71-72 | a list ending in a comma always fails |
| `Frontend.UnanchoredMatch` | frontend/src/App.jsx:72 | `"foo a@b.c"` passes the test and `"a@b."` does not |
| `Frontend.PersistWritesOnlyStorage` | frontend/src/App.jsx:31-33 | the storage effect changes only the storage cell, writes a non-empty summary there and leaves storage alone for an empty one |
| `Frontend.Mount` | frontend/src/App.jsx:17-29 | the initial state, with a stored non-empty summary restored; storage mirrors the summary and nothing is loading |
| `Frontend.ReloadRestoresSummary` | frontend/src/App.jsx:26-33 | with storage mirroring the summary, a fresh mount shows the summary that was on screen when it is non-empty (after the summary is cleared, `Frontend.Mount` restores the stored value) |
| `Frontend.AttemptTrace` | frontend/src/App.jsx:46-63 | a passing handler sets loading and clears the error before its single request, notifies once and clears loading only at the end |
| `Frontend.GenerateStepState` | frontend/src/App.jsx:35-64 | only error, loading, summary and storage change. Missing input is reported first, then a bad extension. A passing form ends with loading off, and either the thrown message as error with the summary kept, or the error cleared with the reply's summary shown and written to storage when non-empty, storage being left as it was for an empty reply. The storage mirror is preserved |
| `Frontend.GenerateTrace` | frontend/src/App.jsx:35-64 | a rejected form only sets the error; a passing one posts exactly one upload and shows the success or the failure notification according to the outcome |
| `Frontend.SendStepState` | frontend/src/App.jsx:66-94 | only error and loading change, and summary and storage never do. Missing input is reported first, then a malformed address. The error is the thrown message or is cleared |
| `Frontend.SendTrace` | frontend/src/App.jsx:66-94 | a rejected form only sets the error; a passing one posts the raw summary and recipients once and notifies according to the outcome |
| `Frontend.EmptyErrorReplyCountsAsSuccess` | frontend/src/App.jsx:55-57 | an error reply with an empty message yields the success notification, an empty summary and no error |
| `Frontend.App.constructor` | frontend/src/App.jsx:17-29 | the object's state is the mounted state |
| `Frontend.App.Generate` | frontend/src/App.jsx:35-64 | setting the fields step by step gives exactly `GenerateStep`'s state and effects, keeping the storage mirror and loading off between events |
| `Frontend.App.GenerateRequest` | frontend/src/App.jsx:46-63 | the try/catch/finally part reaches `GenerateAttempt`'s state and appends its trace |
| `Frontend.App.Send` | frontend/src/App.jsx:66-94 | setting the fields step by step gives exactly `SendStep`'s state and effects |
| `Frontend.App.SendRequest` | frontend/src/App.jsx:77-93 | the try/catch/finally part reaches `SendAttempt`'s state and appends its trace |
| `Frontend.App.SetSummary` | frontend/src/App.jsx:56 | the summary is set and, when non-empty, written to storage |
| `Frontend.App.SelectFile` | frontend/src/App.jsx:112 | only the selected file changes, and the storage mirror is kept |
| `Frontend.App.EditPrompt` | frontend/src/App.jsx:121 | only the prompt changes, and the storage mirror is kept |
| `Frontend.App.PickSuggestion` | frontend/src/App.jsx:127-128 | only the prompt changes, to the chosen canned prompt (the constant `PromptSuggestions`, the four strings of App.jsx lines 9-14 in menu order), and the storage mirror is kept |
| `Frontend.App.EditSummary` | frontend/src/App.jsx:151 | the summary is replaced and mirrored into storage when non-empty, so the storage mirror is kept |
| `Frontend.App.EditRecipients` | frontend/src/App.jsx:173 | only the recipients change, and the storage mirror is kept |
| `Frontend.App.TogglePreview` | frontend/src/App.jsx:155 | only the preview flag changes, to its negation, and the storage mirror is kept |
| `Frontend.TogglePreviewTwice` | frontend/src/App.jsx:155 | pressing the preview button twice restores the state |
| `Backend.Dispatch` | app.py:30-37 | the branch taken is the one whose suffix the lower-cased name ends with |
| `Backend.SuffixesExclusive` | app.py:26 | no name ends with two of the accepted suffixes |
| `Backend.NonEmptyKeepsOnlyText` | app.py:34 | the kept pages are no more than the pages, each is a page of the document, none is empty, and every page with text is among them |
| `Backend.NonEmptyKeepsTextPages` | app.py:34 | a document whose every page has text keeps all its pages |
| `Backend.NonEmptyAppend` | app.py:34 | filtering the pages distributes over concatenation |
| `Backend.BlankPageSkipped` | app.py:34 | a blank page leaves no empty line in the transcript |
| `Backend.PdfTranscript` | app.py:32-34 | a PDF whose every page has text is read as its pages joined by newlines |
| `Backend.FullPrompt` | app.py:40 | the prompt starts with the preamble, ends with the instruction, and holds the transcript, the blank-line separator and the user's prompt verbatim at fixed offsets |
| `Backend.GenerateSummary` | app.py:20-51 | status is 200, 400 or 500. It is 400 iff a field is missing or the lower-cased name lacks an accepted suffix, and missing fields are reported first. A 200 carries a summary that stripping leaves unchanged; every other status carries an error |
| `Backend.RejectionCallsNoService` | app.py:21-27 | a 400 answer does not depend on any library |
| `Backend.GenerateSucceeds` | app.py:29-49 | when reading and completion succeed, the answer is 200 with the stripped completion |
| `Backend.GenerateFails` | app.py:29-51 | a failure in reading or completion is answered 500 with its message |
| `Backend.RecipientList` | app.py:73 | the envelope recipients are the comma-free pieces of the header, one more than its commas, and join back to it |
| `Backend.Envelope` | app.py:66-73 | the 'To' header is the request's recipients string, and the envelope recipients name the same addresses: one comma-free recipient per comma-separated piece of the header, and joined with commas they give the header back; the text is the summary under the fixed subject |
| `Backend.SendEmail` | app.py:54-77 | 400 iff summary or recipients is missing or empty. Otherwise 200 with the success body iff delivery succeeds, and 500 with delivery's error otherwise |
| `Backend.SendRejectionDeliversNothing` | app.py:59-60 | a 400 answer does not depend on delivery |
| `Backend.Serve` | app.py:82-85 | 404 with the not-found body iff the path starts with an API name; otherwise the page |
| `Backend.ApiPrefixesNotFound` | app.py:83 | every path that begins with either API name, even without a slash, is 404 |
| `Backend.PagePaths` | app.py:80-85 | the root gets the page, and so does every non-empty path whose first character is neither 'g' nor 's', such as `x/send_email` |
| `Interplay.ServerAcceptedPassesClient` | app.py:25-26 | every name the server accepts passes the client's extension check |
| `Interplay.ClientOnlyAcceptsBareExtensions` | frontend/src/App.jsx:40-41 | the client accepts and the server refuses exactly the dotless names that are `txt`, `pdf` or `docx` up to case |
| `Interplay.DottedAllowedNameAccepted` | app.py:26 | a name containing a dot that passes the client check is accepted by the server |
| `Interplay.BareTxtName` | frontend/src/App.jsx:40-41 | `TXT` passes the client and is refused by the server |
| `Interplay.ClientCheckedGenerateOnServer` | app.py:21-27 | a form the client lets through is never reported as missing fields, and is refused iff its name has no dot |
| `Interplay.ClientCheckedSendOnServer` | app.py:59-73 | a send the client lets through passes the server's presence check, and every envelope recipient passes the client's address test |
| `Interplay.Reply` | frontend/src/App.jsx:54-55 | defines what `await response.json()` and `if (data.error)` make of a server answer; the client's verdict on every answer of each route is stated by `Interplay.GenerateVerdict`, `Interplay.SendVerdict` and `Interplay.CatchAllVerdict` |
| `Interplay.GenerateVerdict` | frontend/src/App.jsx:53-60 | on any `/generate_summary` answer the client succeeds iff it is a 200 or an error with an empty message; a success shows the answer's summary; any other error is thrown with the server's message |
| `Interplay.SendVerdict` | frontend/src/App.jsx:80-90 | on any `/send_email` answer the client succeeds iff the mail was sent or the error message is empty; a 400 is thrown with the presence message and a failed delivery with its message |
| `Interplay.CatchAllVerdict` | frontend/src/App.jsx:53-55 | an answer from the catch-all route always fails on the client: with the not-found message under an API name, with the JSON parse error elsewhere |
| `Interplay.GeneratedSummaryShown` | frontend/src/App.jsx:53-57 | end to end, the client shows the server's stripped completion, clears the error and reports success |
| `Interplay.DotlessNameRejectedByServer` | frontend/src/App.jsx:53-60 | a dotless name the client let through comes back as the server's extension message, shown as the client's error with the failure notification |
| `Interplay.EmptyServerErrorLooksLikeSuccess` | app.py:50-51 | a server failure with empty exception text is a 500 that the client shows as a successful, empty summary |

## Left out

- `handleCopy` (App.jsx lines 96-99) is not modelled: it only writes to the clipboard and shows a notification.
- Rendering is not modelled. This covers the JSX layout, the disabled buttons, the spinner, the error alert, the Markdown preview and the toast display. The model records which notification is raised, not how it is shown.
- The two handlers are modelled as running to completion in one step. The interleaving of user events with a request in flight is not modelled.
- `fetch`, `FormData`, JSON encoding and decoding, and real local storage are not modelled. The request is an effect, the reply an `Outcome` parameter, and storage a state cell.
- The server's libraries are parameters of the model: Groq, PyPDF2, python-docx, UTF-8 decoding and SMTP (host, port, login).
- `Backend.NonEmpty`: `page.extract_text()` is called twice per page in the source; the model reads one value per page.
- The completion's `temperature=0.7` is left out (a floating-point value passed through unchanged).
- Environment variables are left out: the API key, sender and password. So are `load_dotenv`, CORS, Flask's routing and method matching, and the debug server.
- The MIME encoding of the message beyond its text, subject and 'To' header is left out. The 'From' header is the sender from the environment.
- A `/send_email` body that is not a JSON object, or whose fields are not strings, is not modelled: the fields are optional strings.
- A failure of `send_from_directory` (a missing `index.html`) is not modelled.
- Lower-casing is modelled on ASCII letters only; JavaScript's and Python's full Unicode case mapping is not.
- JavaScript `undefined` for a reply without a `summary` field is modelled as the empty string.
