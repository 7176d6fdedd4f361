/**
 * The client and the server together: what the client's checks guarantee
 * about the request the server receives, where the two extension tests
 * disagree, and how the client reads the server's answers.
 */
module Interplay {
  import opened Wrappers
  import opened Text
  import F = Frontend
  import B = Backend

  // ---------------------------------------------------------------------
  // The two extension tests
  // ---------------------------------------------------------------------

  /** Every name the server accepts passes the client's test: a name ending in
      ".txt", ".pdf" or ".docx" has that extension after its last dot. */
  lemma ServerAcceptedPassesClient(name: string)
    requires B.Accepted(ToLower(name))
    ensures F.ExtensionAllowed(name)
  {
    var lower := ToLower(name);
    if EndsWith(lower, ".txt") {
      assert ['.'] + "txt" == ".txt";
      LastSegmentAfterSeparator(lower, '.', "txt");
    } else if EndsWith(lower, ".pdf") {
      assert ['.'] + "pdf" == ".pdf";
      LastSegmentAfterSeparator(lower, '.', "pdf");
    } else {
      assert ['.'] + "docx" == ".docx";
      LastSegmentAfterSeparator(lower, '.', "docx");
    }
  }

  /** The client accepts and the server rejects exactly the names without a
      dot that are, up to case, "txt", "pdf" or "docx": the client takes a
      dotless name as its own extension, the server asks for the dot. */
  lemma ClientOnlyAcceptsBareExtensions(name: string)
    ensures F.ExtensionAllowed(name) && !B.Accepted(ToLower(name)) <==>
      '.' !in name && ToLower(name) in F.AllowedExtensions
  {
    var lower := ToLower(name);
    if '.' in name && F.ExtensionAllowed(name) {
      DottedAllowedNameAccepted(name);
    }
    if '.' !in name {
      F.ExtIsTextAfterLastDot(name);
      NoDotNoSuffix(lower, ".txt");
      NoDotNoSuffix(lower, ".pdf");
      NoDotNoSuffix(lower, ".docx");
    }
  }

  /** With a dot in the name, the two tests agree. */
  lemma DottedAllowedNameAccepted(name: string)
    requires '.' in name && F.ExtensionAllowed(name)
    ensures B.Accepted(ToLower(name))
  {
    var lower, e := ToLower(name), F.Ext(name);
    F.ExtIsTextAfterLastDot(name);
    F.ToLowerKeepsSeparator(name, '.');
    assert |e| < |lower|;
    var n := |lower|;
    assert lower[n - |e| - 1..] == ['.'] + lower[n - |e|..];
    assert EndsWith(lower, ['.'] + e);
    if e == "txt" {
      assert ['.'] + e == ".txt";
    } else if e == "pdf" {
      assert ['.'] + e == ".pdf";
    } else {
      assert ['.'] + e == ".docx";
    }
  }

  lemma NoDotNoSuffix(s: string, suffix: string)
    requires '.' !in s && |suffix| > 0 && suffix[0] == '.'
    ensures !EndsWith(s, suffix)
  {
  }

  /** A file named "TXT" is accepted by the client and rejected by the server. */
  lemma BareTxtName()
    ensures F.ExtensionAllowed("TXT") && !B.Accepted(ToLower("TXT"))
  {
    assert ToLower("TXT") == "txt";
    ClientOnlyAcceptsBareExtensions("TXT");
  }

  // ---------------------------------------------------------------------
  // What the client sends
  // ---------------------------------------------------------------------

  /** The multipart request the generate handler posts for a form. */
  function SummaryRequestOf(f: F.Form, content: seq<bv8>): B.SummaryRequest
    requires f.file.Some?
  {
    B.SummaryRequest(Some(B.Upload(f.file.value, content)), Some(f.prompt))
  }

  /** A form the client lets through always carries both fields, so the
      server never reports them missing; it rejects it only when the file
      name has no dot. */
  lemma ClientCheckedGenerateOnServer(f: F.Form, content: seq<bv8>, svc: B.Services)
    requires F.GenerateRejection(f.file, f.prompt).None?
    ensures var r := B.GenerateSummary(SummaryRequestOf(f, content), svc);
      && r != B.Response(400, B.ErrorBody(B.MissingFieldsError))
      && (r.status == 400 <==> '.' !in f.file.value)
  {
    var name := f.file.value;
    var req := SummaryRequestOf(f, content);
    assert B.HasFields(req) && req.transcript.value.filename == name;
    assert F.ExtensionAllowed(name);
    ClientOnlyAcceptsBareExtensions(name);
    F.ExtIsTextAfterLastDot(name);
    assert B.GenerateSummary(req, svc).status == 400 <==> !B.Accepted(ToLower(name));
  }

  /** A send the client lets through passes the server's presence check, and
      every envelope recipient, though not trimmed by the server, passes the
      client's address test. */
  lemma ClientCheckedSendOnServer(f: F.Form, deliver: B.Delivery -> Result<(), string>)
    requires F.SendRejection(f.summary, f.recipients).None?
    ensures B.SendEmail(B.EmailRequest(Some(f.summary), Some(f.recipients)), deliver).status != 400
    ensures var to := B.RecipientList(f.recipients);
      forall k :: 0 <= k < |to| ==> F.EmailLike(to[k])
  {
    F.RecipientsCheckOnRawPieces(f.recipients);
    var to := B.RecipientList(f.recipients);
    forall k | 0 <= k < |to| ensures F.EmailLike(to[k]) {
      assert to[k] in Split(f.recipients, ',');
    }
  }

  // ---------------------------------------------------------------------
  // What the client makes of the answer
  // ---------------------------------------------------------------------

  /** `await response.json()` as the handlers use it: the summary of a summary
      body, the `error` field of an error body, no fields of a success body,
      and a thrown parse error for the HTML page. */
  function Reply(r: B.Response, parseError: string): F.Outcome {
    match r.body
    case SummaryBody(s) => F.Ok(s)
    case ErrorBody(e) => F.Err(e)
    case SuccessBody(_) => F.Ok("")
    case IndexPage => F.Throw(parseError)
  }

  /** The client's verdict on every `/generate_summary` answer: it takes the
      answer as a success exactly when it is a 200 or an error whose message
      is empty; a success shows the answer's summary, and any other error is
      thrown with the server's message. */
  lemma GenerateVerdict(req: B.SummaryRequest, svc: B.Services, parseError: string)
    ensures var r := B.GenerateSummary(req, svc);
      var o := Reply(r, parseError);
      && (F.Thrown(o).None? <==> r.status == 200 || r.body.error == "")
      && (r.status == 200 ==> F.ReplySummary(o) == r.body.summary)
      && (r.status != 200 && r.body.error != "" ==> F.Thrown(o) == Some(r.body.error))
  {
  }

  /** The client's verdict on every `/send_email` answer: a success exactly
      when the server sent the mail or failed with an empty message; a
      rejected request is thrown with the server's presence message, a
      failed delivery with the delivery's message. */
  lemma SendVerdict(req: B.EmailRequest, deliver: B.Delivery -> Result<(), string>, parseError: string)
    ensures var r := B.SendEmail(req, deliver);
      var o := Reply(r, parseError);
      && (F.Thrown(o).None? <==> r.status == 200 || r.body == B.ErrorBody(""))
      && (r.status == 400 ==> F.Thrown(o) == Some(B.MissingEmailFieldsError))
      && (r.status == 500 && r.body != B.ErrorBody("") ==> F.Thrown(o) == Some(r.body.error))
  {
  }

  /** A request that reaches the catch-all route always fails on the client:
      with the not-found message under an API name, and with the parse error
      of reading the HTML page as JSON anywhere else. */
  lemma CatchAllVerdict(path: string, parseError: string)
    ensures F.Thrown(Reply(B.Serve(path), parseError)) ==
      Some(if B.ApiPath(path) then B.NotFound else parseError)
  {
  }

  /** End to end: the client shows the server's stripped completion, clears
      the error and reports success. */
  lemma GeneratedSummaryShown(f: F.Form, content: seq<bv8>, svc: B.Services, transcript: string,
                              completion: string, parseError: string)
    requires F.GenerateRejection(f.file, f.prompt).None? && B.Accepted(ToLower(f.file.value))
    requires B.ReadTranscript(B.Dispatch(ToLower(f.file.value)), content, svc) == Success(transcript)
    requires svc.complete(B.ChatRequest(B.ChatModel, B.FullPrompt(transcript, f.prompt), B.MaxTokens))
      == Success(completion)
    ensures var step := F.GenerateStep(f, Reply(B.GenerateSummary(SummaryRequestOf(f, content), svc), parseError));
      && step.next.summary == PyStrip(completion)
      && step.next.error == ""
      && F.Toasts(step.effects) == [F.SuccessToast(F.GeneratedText)]
  {
    ClientCheckedGenerateOnServer(f, content, svc);
    B.GenerateSucceeds(SummaryRequestOf(f, content), svc, transcript, completion);
    var o := Reply(B.GenerateSummary(SummaryRequestOf(f, content), svc), parseError);
    F.GenerateStepState(f, o);
    F.GenerateTrace(f, o);
  }

  /** A dotless name the client let through comes back as the server's
      extension message, which the client shows as its error. */
  lemma DotlessNameRejectedByServer(f: F.Form, content: seq<bv8>, svc: B.Services, parseError: string)
    requires F.GenerateRejection(f.file, f.prompt).None? && '.' !in f.file.value
    ensures var step := F.GenerateStep(f, Reply(B.GenerateSummary(SummaryRequestOf(f, content), svc), parseError));
      && step.next.error == B.ExtensionError
      && step.next.summary == f.summary
      && F.Toasts(step.effects) == [F.ErrorToast(F.GenerateFailedText)]
  {
    ClientCheckedGenerateOnServer(f, content, svc);
    var o := Reply(B.GenerateSummary(SummaryRequestOf(f, content), svc), parseError);
    assert o == F.Err(B.ExtensionError);
    F.GenerateStepState(f, o);
    F.GenerateTrace(f, o);
  }

  /** A server failure whose exception text is empty reaches the client as
      an error field it does not recognise: the client reports success and
      shows an empty summary. */
  lemma EmptyServerErrorLooksLikeSuccess(f: F.Form, content: seq<bv8>, svc: B.Services, transcript: string,
                                         parseError: string)
    requires F.GenerateRejection(f.file, f.prompt).None? && B.Accepted(ToLower(f.file.value))
    requires B.ReadTranscript(B.Dispatch(ToLower(f.file.value)), content, svc) == Success(transcript)
    requires svc.complete(B.ChatRequest(B.ChatModel, B.FullPrompt(transcript, f.prompt), B.MaxTokens))
      == Failure("")
    ensures B.GenerateSummary(SummaryRequestOf(f, content), svc).status == 500
    ensures var step := F.GenerateStep(f, Reply(B.GenerateSummary(SummaryRequestOf(f, content), svc), parseError));
      && step.next.summary == ""
      && F.Toasts(step.effects) == [F.SuccessToast(F.GeneratedText)]
  {
    ClientCheckedGenerateOnServer(f, content, svc);
    B.GenerateFails(SummaryRequestOf(f, content), svc, "");
    F.EmptyErrorReplyCountsAsSuccess(f);
  }
}
