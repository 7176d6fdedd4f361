/**
 * The Flask server (app.py): the request-decision logic of the three routes
 * as pure functions from a request to a response `(status, body)`. The
 * libraries the handlers call (UTF-8 decoding, PyPDF2, python-docx, the Groq
 * chat completion, SMTP delivery) are function-valued parameters that may
 * fail; a failure carries the text `str(e)` of the exception raised.
 */
module Backend {
  import opened Wrappers
  import opened Text

  const MissingFieldsError := "Missing transcript or prompt"
  const ExtensionError := "Only .txt, .pdf, .docx files allowed"
  const MissingEmailFieldsError := "Missing summary or recipients"
  const EmailSent := "Email sent"
  const NotFound := "Not found"

  /** The model name and token budget of the chat-completion call. */
  const ChatModel := "llama3-8b-8192"
  const MaxTokens := 1024

  /** The text wrapped around the transcript and the user's prompt. */
  const Preamble := "Based on this meeting transcript: "
  const Separator := "\n\n"
  const Instruction := ". Ensure that the response is relevant and structured. Strictly not include any Markup!"

  /** The file part 'transcript' of a multipart request: its client-supplied
      name and its bytes. */
  datatype Upload = Upload(filename: string, content: seq<bv8>)

  /** A `/generate_summary` request: the file part and the form field
      'prompt', each of which may be absent. */
  datatype SummaryRequest = SummaryRequest(transcript: Option<Upload>, prompt: Option<string>)

  /** A `/send_email` request: `data.get('summary')` and
      `data.get('recipients')` of its JSON body. */
  datatype EmailRequest = EmailRequest(summary: Option<string>, recipients: Option<string>)

  /** The JSON objects the routes answer with, and the static page. */
  datatype Body =
    | SummaryBody(summary: string)
    | ErrorBody(error: string)
    | SuccessBody(success: string)
    | IndexPage

  datatype Response = Response(status: int, body: Body)

  /** The three parsing branches. */
  datatype Format = Txt | Pdf | Docx

  /** The one user message sent to the chat-completion service. */
  datatype ChatRequest = ChatRequest(model: string, content: string, maxTokens: int)

  /** The libraries `generate_summary` calls. `pdfPages` yields the extracted
      text of each page, `docxParagraphs` the text of each paragraph. */
  datatype Services = Services(
    decodeUtf8: seq<bv8> -> Result<string, string>,
    pdfPages: seq<bv8> -> Result<seq<string>, string>,
    docxParagraphs: seq<bv8> -> Result<seq<string>, string>,
    complete: ChatRequest -> Result<string, string>)

  /** What `send_email` hands to SMTP: the envelope recipients, the 'To'
      header, the 'Subject' header and the message text. */
  datatype Delivery = Delivery(to: seq<string>, toHeader: string, subject: string, text: string)

  // ---------------------------------------------------------------------
  // /generate_summary
  // ---------------------------------------------------------------------

  /** `filename.endswith(('.txt', '.pdf', '.docx'))` on the lower-cased name. */
  predicate Accepted(lower: string) {
    EndsWith(lower, ".txt") || EndsWith(lower, ".pdf") || EndsWith(lower, ".docx")
  }

  /** The `if`/`elif` chain choosing how to read the file. */
  function Dispatch(lower: string): (fmt: Format)
    requires Accepted(lower)
    ensures fmt == Txt <==> EndsWith(lower, ".txt")
    ensures fmt == Pdf <==> EndsWith(lower, ".pdf")
    ensures fmt == Docx <==> EndsWith(lower, ".docx")
  {
    SuffixesExclusive(lower);
    if EndsWith(lower, ".txt") then Txt
    else if EndsWith(lower, ".pdf") then Pdf
    else Docx
  }

  /** No name ends with two of the accepted suffixes: their last characters
      't', 'f' and 'x' differ. */
  lemma SuffixesExclusive(lower: string)
    ensures !(EndsWith(lower, ".txt") && EndsWith(lower, ".pdf"))
    ensures !(EndsWith(lower, ".txt") && EndsWith(lower, ".docx"))
    ensures !(EndsWith(lower, ".pdf") && EndsWith(lower, ".docx"))
  {
    var n := |lower|;
    if EndsWith(lower, ".txt") {
      assert lower[n - 1] == ".txt"[3] == 't';
    }
    if EndsWith(lower, ".pdf") {
      assert lower[n - 1] == ".pdf"[3] == 'f';
    }
    if EndsWith(lower, ".docx") {
      assert lower[n - 1] == ".docx"[4] == 'x';
    }
  }

  /** The pages whose extracted text is non-empty (the generator's `if`). */
  function NonEmpty(pages: seq<string>): seq<string> {
    if pages == [] then []
    else (if pages[0] != "" then [pages[0]] else []) + NonEmpty(pages[1..])
  }

  /** The kept pages are the text pages of the document: no more of them
      than there were pages, each of them a page of the document, none of
      them empty, and every page with text among them. (Their order is
      pinned down by `NonEmptyAppend`.) */
  lemma {:induction false} NonEmptyKeepsOnlyText(pages: seq<string>)
    ensures var kept := NonEmpty(pages);
      && |kept| <= |pages|
      && (forall k :: 0 <= k < |kept| ==> kept[k] != "" && kept[k] in pages)
      && (forall k :: 0 <= k < |pages| && pages[k] != "" ==> pages[k] in kept)
  {
    if pages != [] {
      NonEmptyKeepsOnlyText(pages[1..]);
      var head := if pages[0] != "" then [pages[0]] else [];
      var kept, rest := NonEmpty(pages), NonEmpty(pages[1..]);
      assert kept == head + rest;
      forall k | 0 <= k < |kept| ensures kept[k] in pages {
        if k >= |head| {
          assert kept[k] == rest[k - |head|] && kept[k] in pages[1..];
        }
      }
      forall k | 0 <= k < |pages| && pages[k] != "" ensures pages[k] in kept {
        if k > 0 {
          assert pages[k] == pages[1..][k - 1];
        }
      }
    }
  }

  /** Keeping the non-empty pages drops nothing from a document whose every
      page has text. */
  lemma {:induction false} NonEmptyKeepsTextPages(pages: seq<string>)
    requires forall k :: 0 <= k < |pages| ==> pages[k] != ""
    ensures NonEmpty(pages) == pages
  {
    if pages != [] {
      NonEmptyKeepsTextPages(pages[1..]);
      assert pages == [pages[0]] + pages[1..];
    }
  }

  /** The transcript text read by the chosen branch. */
  function ReadTranscript(fmt: Format, content: seq<bv8>, svc: Services): Result<string, string> {
    match fmt
    case Txt => svc.decodeUtf8(content)
    case Pdf =>
      (match svc.pdfPages(content)
       case Failure(e) => Failure(e)
       case Success(pages) => Success(Join(NonEmpty(pages), '\n')))
    case Docx =>
      (match svc.docxParagraphs(content)
       case Failure(e) => Failure(e)
       case Success(paragraphs) => Success(Join(paragraphs, '\n')))
  }

  /** The f-string sent to the model. Both the transcript and the user's prompt
      appear in it verbatim, at fixed offsets from its two ends. */
  function FullPrompt(transcript: string, userPrompt: string): (p: string)
    ensures |p| == |Preamble| + |transcript| + |Separator| + |userPrompt| + |Instruction|
    ensures StartsWith(p, Preamble) && EndsWith(p, Instruction)
    ensures p[|Preamble|..|Preamble| + |transcript|] == transcript
    ensures p[|Preamble| + |transcript|..|Preamble| + |transcript| + |Separator|] == Separator
    ensures p[|p| - |Instruction| - |userPrompt|..|p| - |Instruction|] == userPrompt
  {
    var p := Preamble + transcript + Separator + userPrompt + Instruction;
    assert p[|Preamble|..|Preamble| + |transcript|] == transcript;
    assert p[|Preamble| + |transcript|..|Preamble| + |transcript| + |Separator|] == Separator;
    assert p[|p| - |Instruction| - |userPrompt|..|p| - |Instruction|] == userPrompt;
    p
  }

  /** Both fields present. */
  predicate HasFields(req: SummaryRequest) {
    req.transcript.Some? && req.prompt.Some?
  }

  /** `generate_summary()`. */
  function GenerateSummary(req: SummaryRequest, svc: Services): (r: Response)
    ensures r.status in {200, 400, 500}
    // the presence check comes first
    ensures !HasFields(req) ==> r == Response(400, ErrorBody(MissingFieldsError))
    ensures HasFields(req) && !Accepted(ToLower(req.transcript.value.filename)) ==>
      r == Response(400, ErrorBody(ExtensionError))
    ensures r.status == 400 <==> !HasFields(req) || !Accepted(ToLower(req.transcript.value.filename))
    // what is answered is either the stripped summary or an error message
    ensures r.status == 200 ==> r.body.SummaryBody? && PyStrip(r.body.summary) == r.body.summary
    ensures r.status != 200 ==> r.body.ErrorBody?
  {
    if !HasFields(req) then Response(400, ErrorBody(MissingFieldsError))
    else
      var file := req.transcript.value;
      var lower := ToLower(file.filename);
      if !Accepted(lower) then Response(400, ErrorBody(ExtensionError))
      else
        match ReadTranscript(Dispatch(lower), file.content, svc)
        case Failure(e) => Response(500, ErrorBody(e))
        case Success(transcript) =>
          match svc.complete(ChatRequest(ChatModel, FullPrompt(transcript, req.prompt.value), MaxTokens))
          case Failure(e) => Response(500, ErrorBody(e))
          case Success(content) =>
            StripIdempotent(content, IsPySpace);
            Response(200, SummaryBody(PyStrip(content)))
  }

  /** A rejected request is answered before any library is called: the answer
      is the same whatever the services would have done. */
  lemma RejectionCallsNoService(req: SummaryRequest, svc: Services, other: Services)
    requires GenerateSummary(req, svc).status == 400
    ensures GenerateSummary(req, other) == GenerateSummary(req, svc)
  {
  }

  /** An accepted request whose file is read and whose completion succeeds is
      answered 200 with the completion stripped of surrounding whitespace; the
      model is asked with the fixed model name and token budget. */
  lemma GenerateSucceeds(req: SummaryRequest, svc: Services, transcript: string, content: string)
    requires HasFields(req) && Accepted(ToLower(req.transcript.value.filename))
    requires ReadTranscript(Dispatch(ToLower(req.transcript.value.filename)), req.transcript.value.content, svc)
      == Success(transcript)
    requires svc.complete(ChatRequest(ChatModel, FullPrompt(transcript, req.prompt.value), MaxTokens))
      == Success(content)
    ensures GenerateSummary(req, svc) == Response(200, SummaryBody(PyStrip(content)))
  {
  }

  /** Any failure while reading the file or asking the model is answered 500
      with that failure's message. */
  lemma GenerateFails(req: SummaryRequest, svc: Services, e: string)
    requires HasFields(req) && Accepted(ToLower(req.transcript.value.filename))
    requires var read := ReadTranscript(Dispatch(ToLower(req.transcript.value.filename)),
                                        req.transcript.value.content, svc);
      || read == Failure(e)
      || (read.Success? &&
          svc.complete(ChatRequest(ChatModel, FullPrompt(read.value, req.prompt.value), MaxTokens)) == Failure(e))
    ensures GenerateSummary(req, svc) == Response(500, ErrorBody(e))
  {
  }

  /** A PDF whose every page has text is read as its pages joined by
      newlines. */
  lemma PdfTranscript(content: seq<bv8>, svc: Services, pages: seq<string>)
    requires svc.pdfPages(content) == Success(pages)
    requires forall k :: 0 <= k < |pages| ==> pages[k] != ""
    ensures ReadTranscript(Pdf, content, svc) == Success(Join(pages, '\n'))
  {
    NonEmptyKeepsTextPages(pages);
  }

  /** A blank page leaves no empty line behind: the PDF transcript is the same
      as for the document without it. */
  lemma {:induction false} BlankPageSkipped(before: seq<string>, after: seq<string>)
    ensures NonEmpty(before + [""] + after) == NonEmpty(before + after)
  {
    NonEmptyAppend(before, [""] + after);
    NonEmptyAppend(before, after);
    assert before + [""] + after == before + ([""] + after);
    assert ([""] + after)[1..] == after;
    assert NonEmpty([""] + after) == NonEmpty(after);
  }

  lemma {:induction false} NonEmptyAppend(a: seq<string>, b: seq<string>)
    ensures NonEmpty(a + b) == NonEmpty(a) + NonEmpty(b)
  {
    if a == [] {
      assert a + b == b;
    } else {
      var ab, head := a + b, if a[0] != "" then [a[0]] else [];
      assert ab[0] == a[0] && ab[1..] == a[1..] + b;
      NonEmptyAppend(a[1..], b);
      calc {
        NonEmpty(ab);
        head + NonEmpty(a[1..] + b);
        head + (NonEmpty(a[1..]) + NonEmpty(b));
        (head + NonEmpty(a[1..])) + NonEmpty(b);
      }
    }
  }

  // ---------------------------------------------------------------------
  // /send_email
  // ---------------------------------------------------------------------

  /** Python truthiness of a JSON string value: present and non-empty. */
  predicate Truthy(v: Option<string>) {
    v.Some? && v.value != ""
  }

  /** `recipients.split(',')`: the envelope recipients, neither trimmed nor
      filtered; there is one more than there are commas, and joining them
      with commas gives the header text back. */
  function RecipientList(recipients: string): (to: seq<string>)
    ensures |to| == multiset(recipients)[','] + 1
    ensures Join(to, ',') == recipients
    ensures forall k :: 0 <= k < |to| ==> ',' !in to[k]
  {
    SplitCount(recipients, ',');
    JoinSplit(recipients, ',');
    Split(recipients, ',')
  }

  /** The message built from a send request. The envelope recipients and the
      'To' header name the same addresses: one envelope recipient per
      comma-separated piece of the header, none holding a comma, and joined
      with commas they give the header back. */
  function Envelope(summary: string, recipients: string): (d: Delivery)
    ensures d.toHeader == recipients
    ensures Join(d.to, ',') == d.toHeader
    ensures |d.to| == multiset(d.toHeader)[','] + 1
    ensures forall k :: 0 <= k < |d.to| ==> ',' !in d.to[k]
    ensures d.text == summary && d.subject == "Meeting Summary"
  {
    Delivery(RecipientList(recipients), recipients, "Meeting Summary", summary)
  }

  /** `send_email()`, with SMTP login and delivery as `deliver`. */
  function SendEmail(req: EmailRequest, deliver: Delivery -> Result<(), string>): (r: Response)
    ensures r.status in {200, 400, 500}
    ensures r.status == 400 <==> !Truthy(req.summary) || !Truthy(req.recipients)
    ensures r.status == 400 ==> r.body == ErrorBody(MissingEmailFieldsError)
    ensures r.status == 200 <==>
      Truthy(req.summary) && Truthy(req.recipients)
      && deliver(Envelope(req.summary.value, req.recipients.value)).Success?
    ensures r.status == 200 ==> r.body == SuccessBody(EmailSent)
    ensures r.status == 500 ==>
      r.body == ErrorBody(deliver(Envelope(req.summary.value, req.recipients.value)).error)
  {
    if !Truthy(req.summary) || !Truthy(req.recipients) then
      Response(400, ErrorBody(MissingEmailFieldsError))
    else
      match deliver(Envelope(req.summary.value, req.recipients.value))
      case Failure(e) => Response(500, ErrorBody(e))
      case Success(_) => Response(200, SuccessBody(EmailSent))
  }

  /** A rejected send request never reaches SMTP. */
  lemma SendRejectionDeliversNothing(req: EmailRequest, deliver: Delivery -> Result<(), string>,
                                     other: Delivery -> Result<(), string>)
    requires SendEmail(req, deliver).status == 400
    ensures SendEmail(req, other) == SendEmail(req, deliver)
  {
  }

  // ---------------------------------------------------------------------
  // The catch-all route
  // ---------------------------------------------------------------------

  /** `path.startswith(('generate_summary', 'send_email'))`. */
  predicate ApiPath(path: string) {
    StartsWith(path, "generate_summary") || StartsWith(path, "send_email")
  }

  /** `serve(path)`: any path under the two API names is 404, every other path
      gets the single-page application. */
  function Serve(path: string): (r: Response)
    ensures r.status == 404 <==> ApiPath(path)
    ensures r.status == 404 ==> r.body == ErrorBody(NotFound)
    ensures r.status != 404 ==> r == Response(200, IndexPage)
  {
    if ApiPath(path) then Response(404, ErrorBody(NotFound)) else Response(200, IndexPage)
  }

  /** The prefix test is on characters, not on path segments: every extension
      of an API name is 404, including names that merely begin like one. */
  lemma ApiPrefixesNotFound(rest: string)
    ensures Serve("generate_summary" + rest).status == 404
    ensures Serve("send_email" + rest).status == 404
  {
    assert ("generate_summary" + rest)[..16] == "generate_summary";
    assert ("send_email" + rest)[..10] == "send_email";
  }

  /** The root, and every path that starts with neither API name's first
      letter, get the page; in particular a path that holds an API name
      only after its start, such as "x/send_email", is not 404. */
  lemma PagePaths(p: string)
    ensures Serve("") == Response(200, IndexPage)
    ensures |p| > 0 && p[0] != 'g' && p[0] != 's' ==> Serve(p) == Response(200, IndexPage)
  {
    if |p| > 0 && p[0] != 'g' && p[0] != 's' {
      assert !StartsWith(p, "generate_summary") by {
        if |p| >= 16 { assert p[..16][0] == p[0]; }
      }
      assert !StartsWith(p, "send_email") by {
        if |p| >= 10 { assert p[..10][0] == p[0]; }
      }
    }
  }
}
