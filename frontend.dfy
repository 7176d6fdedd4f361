/**
 * The meeting-summarizer form of the browser client (frontend/src/App.jsx):
 * its state cells, the two handlers that validate the form and call the
 * server, the effect that mirrors the summary into local storage, and the
 * pure checks on file names and recipient addresses.
 *
 * The server's reply, or the failure of the request, is a parameter of the
 * handlers (an `Outcome`); each handler runs to completion in one step.
 */
module Frontend {
  import opened Wrappers
  import opened Text

  // ---------------------------------------------------------------------
  // Constants of the component
  // ---------------------------------------------------------------------

  /** The canned prompts of the suggestion menu, in menu order. */
  const PromptSuggestions: seq<string> := [
    "Summarize in bullet points for executives",
    "Highlight only action items",
    "Extract key decisions and next steps",
    "Create a detailed report"
  ]

  /** The extensions the client accepts, lower-case and without the dot. */
  const AllowedExtensions: seq<string> := ["txt", "pdf", "docx"]

  const MissingInputError := "Please upload a transcript and enter a prompt."
  const ExtensionError := "Only .txt, .pdf, .docx files allowed."
  const MissingSendInputError := "Please provide a summary and recipient emails."
  const EmailFormatError := "Invalid email format."

  const GeneratedText := "Summary generated!"
  const GenerateFailedText := "Failed to generate summary."
  const SentText := "Email sent successfully!"
  const SendFailedText := "Failed to send email."

  // ---------------------------------------------------------------------
  // File extension check
  // ---------------------------------------------------------------------

  /** Lower-casing keeps a non-letter separator exactly where it was. */
  lemma ToLowerKeepsSeparator(s: string, sep: char)
    requires !('a' <= sep <= 'z') && !('A' <= sep <= 'Z')
    ensures sep in ToLower(s) <==> sep in s
  {
    var t := ToLower(s);
    if sep in s {
      var k :| 0 <= k < |s| && s[k] == sep;
      LowerCharKeepsPunctuation(s[k], sep);
      assert t[k] == sep;
    }
    if sep in t {
      var k :| 0 <= k < |t| && t[k] == sep;
      LowerCharKeepsPunctuation(s[k], sep);
      assert s[k] == sep;
    }
  }

  /** `name.toLowerCase().split('.').pop()`. */
  function Ext(name: string): string {
    LastSegment(ToLower(name), '.')
  }

  /** The extension is the lower-cased text after the last dot, or the whole
      lower-cased name when it has no dot. */
  lemma ExtIsTextAfterLastDot(name: string)
    ensures var e := Ext(name);
      && '.' !in e
      && EndsWith(ToLower(name), e)
      && (|e| < |name| ==> ToLower(name)[|name| - |e| - 1] == '.')
      && ('.' !in name ==> e == ToLower(name))
  {
    ToLowerKeepsSeparator(name, '.');
    LastSegmentIsSuffix(ToLower(name), '.');
    LastSegmentWithoutSeparator(ToLower(name), '.');
  }

  /** The extension test of the generate handler. */
  predicate ExtensionAllowed(name: string) {
    Ext(name) in AllowedExtensions
  }

  // ---------------------------------------------------------------------
  // Recipient address check
  // ---------------------------------------------------------------------

  /** No whitespace in `s[lo..hi]`. */
  predicate NoSpaceIn(s: string, lo: int, hi: int)
    requires 0 <= lo <= hi <= |s|
  {
    forall k :: lo <= k < hi ==> !IsJsSpace(s[k])
  }

  /** An '@' at `i` and a later '.' at `j`, with at least one character
      before the '@', between the two and after the '.', and no whitespace
      from the character before the '@' to the one after the '.'. */
  predicate EmailAt(s: string, i: int, j: int) {
    0 < i < |s| && i + 2 <= j < |s| - 1 && s[i] == '@' && s[j] == '.' && NoSpaceIn(s, i - 1, j + 2)
  }

  /** The address test `/\S+@\S+\.\S+/.test(s)`, stated by positions. The
      pattern is not anchored, so anything may surround the matching run. */
  predicate EmailLike(s: string) {
    exists i, j | 0 < i < |s| && 0 < j < |s| :: EmailAt(s, i, j)
  }

  /** The regular expression `\S+`: a non-empty run without whitespace. */
  ghost predicate NonSpaceRun(w: string) {
    |w| > 0 && forall k :: 0 <= k < |w| ==> !IsJsSpace(w[k])
  }

  /** `w` is matched by the whole pattern `\S+@\S+\.\S+`, with its '@' at `i`
      and its '.' at `j`. */
  ghost predicate PatternAt(w: string, i: int, j: int) {
    0 <= i < j < |w| && w[i] == '@' && w[j] == '.'
    && NonSpaceRun(w[..i]) && NonSpaceRun(w[i + 1..j]) && NonSpaceRun(w[j + 1..])
  }

  /** `RegExp.prototype.test` of that pattern: some substring matches it. */
  ghost predicate RegexTest(s: string) {
    exists a, b, i, j :: 0 <= a <= b <= |s| && PatternAt(s[a..b], i, j)
  }

  /** The positional test is exactly the regular-expression test. */
  lemma EmailLikeIsRegexTest(s: string)
    ensures EmailLike(s) <==> RegexTest(s)
  {
    if EmailLike(s) {
      var i, j :| EmailAt(s, i, j);
      EmailAtMatches(s, i, j);
    }
    if RegexTest(s) {
      var a, b, i, j :| 0 <= a <= b <= |s| && PatternAt(s[a..b], i, j);
      MatchIsEmailAt(s, a, b, i, j);
    }
  }

  lemma EmailAtMatches(s: string, i: int, j: int)
    requires EmailAt(s, i, j)
    ensures PatternAt(s[i - 1..j + 2], 1, j - i + 1)
  {
    var w := s[i - 1..j + 2];
    var i', j' := 1, j - i + 1;
    assert w[..i'] == [s[i - 1]];
    var mid := w[i' + 1..j'];
    forall k | 0 <= k < |mid| ensures !IsJsSpace(mid[k]) {
      assert mid[k] == s[i + 1 + k];
    }
    assert w[j' + 1..] == [s[j + 1]];
  }

  lemma MatchIsEmailAt(s: string, a: int, b: int, i: int, j: int)
    requires 0 <= a <= b <= |s| && PatternAt(s[a..b], i, j)
    ensures EmailAt(s, a + i, a + j)
  {
    var w := s[a..b];
    var before, mid, after := w[..i], w[i + 1..j], w[j + 1..];
    assert s[a + i - 1] == before[i - 1];
    assert s[a + j + 1] == after[0];
    forall k | a + i + 1 <= k < a + j ensures !IsJsSpace(s[k]) {
      assert s[k] == mid[k - a - i - 1];
    }
  }

  /** Whitespace around an address never changes the test: the `trim()` the
      handler applies before testing is immaterial to the outcome. */
  lemma EmailLikeIgnoresTrim(s: string)
    ensures EmailLike(JsTrim(s)) <==> EmailLike(s)
  {
    var r, d := JsTrim(s), |s| - |StripStart(s, IsJsSpace)|;
    StripIsSlice(s, IsJsSpace);
    assert 0 <= d <= |s| - |r| && s[d..d + |r|] == r;
    EmailLikeIgnoresSurroundingSpace(s, d, r);
  }

  /** The test gives the same answer on a slice as on the whole string when
      only whitespace lies outside the slice. */
  lemma EmailLikeIgnoresSurroundingSpace(s: string, d: int, r: string)
    requires 0 <= d <= |s| - |r| && s[d..d + |r|] == r
    requires forall k :: 0 <= k < d ==> IsJsSpace(s[k])
    requires forall k :: d + |r| <= k < |s| ==> IsJsSpace(s[k])
    ensures EmailLike(r) <==> EmailLike(s)
  {
    if EmailLike(r) {
      var i, j :| EmailAt(r, i, j);
      EmailAtInSlice(s, d, d + |r|, i, j);
    }
    if EmailLike(s) {
      var i, j :| EmailAt(s, i, j);
      assert EmailAt(s, i, j);
      assert !IsJsSpace(s[i - 1]) && !IsJsSpace(s[j + 1]);
      EmailAtOfSlice(s, d, d + |r|, i, j);
    }
  }

  /** A match inside a slice is a match of the whole string, shifted. */
  lemma EmailAtInSlice(s: string, lo: int, hi: int, i: int, j: int)
    requires 0 <= lo <= hi <= |s| && EmailAt(s[lo..hi], i, j)
    ensures EmailAt(s, lo + i, lo + j)
  {
    var r := s[lo..hi];
    forall k | lo + i - 1 <= k < lo + j + 2 ensures !IsJsSpace(s[k]) {
      assert s[k] == r[k - lo];
    }
  }

  /** A match that lies within a slice is a match of the slice, shifted. */
  lemma EmailAtOfSlice(s: string, lo: int, hi: int, i: int, j: int)
    requires 0 <= lo <= hi <= |s| && EmailAt(s, i, j)
    requires lo <= i - 1 && j + 2 <= hi
    ensures EmailAt(s[lo..hi], i - lo, j - lo)
  {
    var r := s[lo..hi];
    forall k | i - lo - 1 <= k < j - lo + 2 ensures !IsJsSpace(r[k]) {
      assert r[k] == s[k + lo];
    }
  }

  /** `recipients.split(',').map(e => e.trim())`. */
  function Entries(recipients: string): seq<string> {
    var parts := Split(recipients, ',');
    seq(|parts|, k requires 0 <= k < |parts| => JsTrim(parts[k]))
  }

  /** The negation of `emails.some(e => !test(e))`: every entry passes. */
  predicate RecipientsWellFormed(recipients: string) {
    var es := Entries(recipients);
    forall k :: 0 <= k < |es| ==> EmailLike(es[k])
  }

  /** The check accepts exactly the lists whose raw comma-separated pieces all
      pass the address test: trimming the pieces first changes nothing. */
  lemma RecipientsCheckOnRawPieces(recipients: string)
    ensures RecipientsWellFormed(recipients) <==>
      forall p :: p in Split(recipients, ',') ==> EmailLike(p)
  {
    var parts := Split(recipients, ',');
    var es := Entries(recipients);
    forall k | 0 <= k < |parts| ensures EmailLike(es[k]) <==> EmailLike(parts[k]) {
      EmailLikeIgnoresTrim(parts[k]);
    }
  }

  /** A blank entry (an empty piece, as a trailing, leading or doubled comma
      leaves, or one made only of whitespace) fails the check. */
  lemma BlankEntryRejected(recipients: string, k: nat)
    requires k < |Split(recipients, ',')|
    requires forall c :: c in Split(recipients, ',')[k] ==> IsJsSpace(c)
    ensures !RecipientsWellFormed(recipients)
  {
    var p := Split(recipients, ',')[k];
    RecipientsCheckOnRawPieces(recipients);
    assert p in Split(recipients, ',');
  }

  /** A list that ends with a comma is always rejected. */
  lemma TrailingCommaRejected(recipients: string)
    ensures !RecipientsWellFormed(recipients + ",")
  {
    var s := recipients + ",";
    var parts := Split(s, ',');
    assert s[|s| - 1..] == [','] + "";
    LastSegmentAfterSeparator(s, ',', "");
    assert parts[|parts| - 1] == "";
    BlankEntryRejected(s, |parts| - 1);
  }

  /** The pattern is not anchored: an address after other text passes. */
  lemma UnanchoredMatch()
    ensures EmailLike("foo a@b.c")
    ensures !EmailLike("a@b.")
  {
    var s := "foo a@b.c";
    assert EmailAt(s, 5, 7);
  }

  // ---------------------------------------------------------------------
  // The form state and the effects of the handlers
  // ---------------------------------------------------------------------

  /** The state cells of the component, plus the storage cell under the key
      'summary'. `file` is the selected file's name. */
  datatype Form = Form(
    file: Option<string>,
    prompt: string,
    summary: string,
    recipients: string,
    error: string,
    loading: bool,
    showPreview: bool,
    stored: Option<string>)

  /** A transient notification. */
  datatype Toast = SuccessToast(text: string) | ErrorToast(text: string)

  /** A request to the server: the multipart upload (file and prompt), or the
      JSON body of an email request. */
  datatype Request = GenerateCall(fileName: string, prompt: string) | SendCall(summary: string, recipients: string)

  /** One observable step of a handler, in the order the handler takes it. */
  datatype Effect =
    | LoadingSet(on: bool)
    | ErrorSet(message: string)
    | SummarySet(text: string)
    | Posted(request: Request)
    | Notified(toast: Toast)

  /** What a request came to: a JSON reply without an `error` field (its
      `summary` field, empty when absent), a JSON reply with one, or a thrown
      network or parse failure with its message. */
  datatype Outcome = Ok(summary: string) | Err(message: string) | Throw(message: string)

  /** A handler's new state and the effects it issued. */
  datatype Step = Step(next: Form, effects: seq<Effect>)

  /** The message `catch (err)` receives, if any. `if (data.error)` tests for
      truthiness, so an error field holding the empty string does not throw. */
  function Thrown(o: Outcome): Option<string> {
    match o
    case Ok(_) => None
    case Err(m) => if m != "" then Some(m) else None
    case Throw(m) => Some(m)
  }

  /** `data.summary` of a reply that did not throw. A reply without that field
      gives `undefined`, which every use in the component treats as "". */
  function ReplySummary(o: Outcome): string {
    match o
    case Ok(s) => s
    case _ => ""
  }

  /** The requests in a trace, in order. */
  function Requests(fx: seq<Effect>): seq<Request> {
    if fx == [] then []
    else (if fx[0].Posted? then [fx[0].request] else []) + Requests(fx[1..])
  }

  /** The notifications in a trace, in order. */
  function Toasts(fx: seq<Effect>): seq<Toast> {
    if fx == [] then []
    else (if fx[0].Notified? then [fx[0].toast] else []) + Toasts(fx[1..])
  }

  lemma {:induction false} RequestsAppend(a: seq<Effect>, b: seq<Effect>)
    ensures Requests(a + b) == Requests(a) + Requests(b)
  {
    if a == [] {
      assert a + b == b;
    } else {
      var ab, head := a + b, if a[0].Posted? then [a[0].request] else [];
      assert ab[0] == a[0] && ab[1..] == a[1..] + b;
      RequestsAppend(a[1..], b);
      calc {
        Requests(ab);
        head + Requests(a[1..] + b);
        head + (Requests(a[1..]) + Requests(b));
        (head + Requests(a[1..])) + Requests(b);
      }
    }
  }

  lemma {:induction false} ToastsAppend(a: seq<Effect>, b: seq<Effect>)
    ensures Toasts(a + b) == Toasts(a) + Toasts(b)
  {
    if a == [] {
      assert a + b == b;
    } else {
      var ab, head := a + b, if a[0].Notified? then [a[0].toast] else [];
      assert ab[0] == a[0] && ab[1..] == a[1..] + b;
      ToastsAppend(a[1..], b);
      calc {
        Toasts(ab);
        head + Toasts(a[1..] + b);
        head + (Toasts(a[1..]) + Toasts(b));
        (head + Toasts(a[1..])) + Toasts(b);
      }
    }
  }

  /** What one effect contributes to the two filters. */
  lemma FiltersOfOne(e: Effect)
    ensures Requests([e]) == (if e.Posted? then [e.request] else [])
    ensures Toasts([e]) == (if e.Notified? then [e.toast] else [])
  {
    assert [e][1..] == [];
  }

  /** Setting the error or the summary neither requests nor notifies. */
  lemma {:induction false} StateSettersAreQuiet(fx: seq<Effect>)
    requires forall k :: 0 <= k < |fx| ==> fx[k].ErrorSet? || fx[k].SummarySet?
    ensures Requests(fx) == [] && Toasts(fx) == []
  {
    if fx != [] {
      StateSettersAreQuiet(fx[1..]);
    }
  }

  /** A validation failure's trace: no request, no notification, and the
      loading flag not touched. */
  predicate Silent(fx: seq<Effect>) {
    Requests(fx) == [] && Toasts(fx) == [] && forall k :: 0 <= k < |fx| ==> !fx[k].LoadingSet?
  }

  /** The storage cell holds the summary whenever the summary is non-empty. */
  predicate Mirrored(f: Form) {
    f.summary != "" ==> f.stored == Some(f.summary)
  }

  /** The effect bound to `summary`: a non-empty summary is written to
      storage; an empty one leaves storage as it was. */
  function Persist(f: Form): Form {
    if f.summary != "" then f.(stored := Some(f.summary)) else f
  }

  /** Writing to storage touches nothing but the storage cell, leaves it alone
      for an empty summary, and establishes the mirror. */
  lemma PersistWritesOnlyStorage(f: Form)
    ensures var g := Persist(f);
      && Mirrored(g)
      && g.(stored := f.stored) == f
      && (f.summary == "" ==> g.stored == f.stored)
  {
  }

  /** The state after mounting: the initial values of the state hooks, then
      the restoring effect, which takes a stored summary only if it is
      non-empty. */
  function Mount(saved: Option<string>): (f: Form)
    ensures Mirrored(f) && f.stored == saved && !f.loading
    ensures f.summary != "" ==> saved == Some(f.summary)
    ensures saved.Some? && saved.value != "" ==> f.summary == saved.value
    ensures f.file == None && f.prompt == "" && f.recipients == "" && f.error == "" && f.showPreview
  {
    var summary := if saved.Some? && saved.value != "" then saved.value else "";
    Form(None, "", summary, "", "", false, true, saved)
  }

  /** Reloading the page brings back the last non-empty summary: after any
      sequence of steps that kept the mirror, a fresh mount shows the summary
      that was on screen when it was non-empty. */
  lemma ReloadRestoresSummary(f: Form)
    requires Mirrored(f)
    ensures f.summary != "" ==> Mount(f.stored).summary == f.summary
  {
  }

  /** The two checks of the generate handler, missing input first. */
  function GenerateRejection(file: Option<string>, prompt: string): Option<string> {
    if file.None? || prompt == "" then Some(MissingInputError)
    else if !ExtensionAllowed(file.value) then Some(ExtensionError)
    else None
  }

  /** The two checks of the send handler, missing input first. */
  function SendRejection(summary: string, recipients: string): Option<string> {
    if summary == "" || recipients == "" then Some(MissingSendInputError)
    else if !RecipientsWellFormed(recipients) then Some(EmailFormatError)
    else None
  }

  /** The trace of a handler whose checks passed: loading on and the error
      cleared, the request, what the reply or the failure led to (`settled`),
      one notification, and loading off. */
  function Attempt(request: Request, settled: seq<Effect>, toast: Toast): seq<Effect> {
    [LoadingSet(true), ErrorSet(""), Posted(request)] + settled + [Notified(toast), LoadingSet(false)]
  }

  /** Such a trace sets loading and clears the error before its one request,
      notifies once, and clears loading at its end and nowhere else. */
  lemma AttemptTrace(request: Request, settled: seq<Effect>, toast: Toast)
    requires forall k :: 0 <= k < |settled| ==> settled[k].ErrorSet? || settled[k].SummarySet?
    ensures var fx := Attempt(request, settled, toast);
      && fx[..3] == [LoadingSet(true), ErrorSet(""), Posted(request)]
      && Requests(fx) == [request]
      && Toasts(fx) == [toast]
      && fx[|fx| - 1] == LoadingSet(false)
      && forall k :: 0 < k < |fx| - 1 ==> !fx[k].LoadingSet?
  {
    AttemptFilters(request, settled, toast);
    var start := [LoadingSet(true), ErrorSet(""), Posted(request)];
    var end := [Notified(toast), LoadingSet(false)];
    var fx := start + settled + end;
    forall k | 0 < k < |fx| - 1 ensures !fx[k].LoadingSet? {
      if k < 3 {
        assert fx[k] == start[k];
      } else if k < 3 + |settled| {
        assert fx[k] == settled[k - 3];
      } else {
        assert fx[k] == end[0];
      }
    }
  }

  /** An attempt's trace, logged one effect at a time. */
  lemma LogAttempt(log: seq<Effect>, request: Request, settled: seq<Effect>, toast: Toast)
    ensures log + [LoadingSet(true)] + [ErrorSet("")] + [Posted(request)] + settled
              + [Notified(toast)] + [LoadingSet(false)]
            == log + Attempt(request, settled, toast)
  {
  }

  lemma AttemptFilters(request: Request, settled: seq<Effect>, toast: Toast)
    requires forall k :: 0 <= k < |settled| ==> settled[k].ErrorSet? || settled[k].SummarySet?
    ensures Requests(Attempt(request, settled, toast)) == [request]
    ensures Toasts(Attempt(request, settled, toast)) == [toast]
  {
    var start := [LoadingSet(true), ErrorSet(""), Posted(request)];
    var end := [Notified(toast), LoadingSet(false)];
    OpeningFilters(request);
    ClosingFilters(toast);
    StateSettersAreQuiet(settled);
    RequestsAppend(start, settled);
    RequestsAppend(start + settled, end);
    ToastsAppend(start, settled);
    ToastsAppend(start + settled, end);
  }

  /** The opening of a trace holds its request and no notification. */
  lemma OpeningFilters(request: Request)
    ensures Requests([LoadingSet(true), ErrorSet(""), Posted(request)]) == [request]
    ensures Toasts([LoadingSet(true), ErrorSet(""), Posted(request)]) == []
  {
    var a, b, c := LoadingSet(true), ErrorSet(""), Posted(request);
    FiltersOfOne(a);
    FiltersOfOne(b);
    FiltersOfOne(c);
    RequestsAppend([a], [b]);
    RequestsAppend([a, b], [c]);
    ToastsAppend([a], [b]);
    ToastsAppend([a, b], [c]);
    assert [a] + [b] == [a, b] && [a, b] + [c] == [a, b, c];
  }

  /** The closing of a trace holds its notification and no request. */
  lemma ClosingFilters(toast: Toast)
    ensures Requests([Notified(toast), LoadingSet(false)]) == []
    ensures Toasts([Notified(toast), LoadingSet(false)]) == [toast]
  {
    var d, e := Notified(toast), LoadingSet(false);
    FiltersOfOne(d);
    FiltersOfOne(e);
    RequestsAppend([d], [e]);
    ToastsAppend([d], [e]);
    assert [d] + [e] == [d, e];
  }


  /** `handleGenerate` on a form, given what its request comes to. */
  function GenerateStep(f: Form, o: Outcome): Step {
    match GenerateRejection(f.file, f.prompt)
    case Some(m) => Step(f.(error := m), [ErrorSet(m)])
    case None => GenerateAttempt(f, o)
  }

  /** The `try`/`catch`/`finally` part of `handleGenerate`, for a form whose
      checks passed. */
  function GenerateAttempt(f: Form, o: Outcome): Step
    requires f.file.Some?
  {
    var call := GenerateCall(f.file.value, f.prompt);
    match Thrown(o)
    case Some(m) =>
      Step(f.(loading := false, error := m), Attempt(call, [ErrorSet(m)], ErrorToast(GenerateFailedText)))
    case None =>
      var text := ReplySummary(o);
      Step(Persist(f.(loading := false, error := "", summary := text)),
           Attempt(call, [SummarySet(text)], SuccessToast(GeneratedText)))
  }

  /** How `handleGenerate` changes the state. */
  lemma GenerateStepState(f: Form, o: Outcome)
    ensures var r := GenerateStep(f, o);
      // only the error, loading, summary and storage cells can change
      && r.next.(error := f.error, loading := f.loading, summary := f.summary, stored := f.stored) == f
      && (Mirrored(f) ==> Mirrored(r.next))
      && (!f.loading ==> !r.next.loading)
      // missing input is reported first
      && (f.file.None? || f.prompt == "" ==> r.next == f.(error := MissingInputError))
      && (f.file.Some? && f.prompt != "" && Ext(f.file.value) !in AllowedExtensions ==>
            r.next == f.(error := ExtensionError))
      // a passing form always ends with loading cleared
      && (GenerateRejection(f.file, f.prompt).None? ==> !r.next.loading)
      && (GenerateRejection(f.file, f.prompt).None? && Thrown(o).Some? ==>
            && r.next.error == Thrown(o).value
            && r.next.summary == f.summary && r.next.stored == f.stored)
      && (GenerateRejection(f.file, f.prompt).None? && Thrown(o).None? ==>
            && r.next.error == "" && r.next.summary == ReplySummary(o)
            && r.next.stored == (if ReplySummary(o) != "" then Some(ReplySummary(o)) else f.stored))
  {
    if GenerateRejection(f.file, f.prompt).None? && Thrown(o).None? {
      PersistWritesOnlyStorage(f.(loading := false, error := "", summary := ReplySummary(o)));
    }
  }

  /** What `handleGenerate` does besides changing the state: a rejected form
      only sets the error; a passing one sets loading and clears the error
      before its one request, notifies once, according to the outcome, and
      clears loading at the end and nowhere in between. */
  lemma GenerateTrace(f: Form, o: Outcome)
    ensures var r, rejection := GenerateStep(f, o), GenerateRejection(f.file, f.prompt);
      && (rejection.Some? ==> r.effects == [ErrorSet(rejection.value)] && Silent(r.effects))
      && (rejection.None? ==>
            var call := GenerateCall(f.file.value, f.prompt);
            && |r.effects| >= 5
            && r.effects[..3] == [LoadingSet(true), ErrorSet(""), Posted(call)]
            && Requests(r.effects) == [call]
            && r.effects[|r.effects| - 1] == LoadingSet(false)
            && (forall k :: 0 < k < |r.effects| - 1 ==> !r.effects[k].LoadingSet?)
            && Toasts(r.effects) ==
                 (if Thrown(o).Some? then [ErrorToast(GenerateFailedText)] else [SuccessToast(GeneratedText)]))
  {
    match GenerateRejection(f.file, f.prompt)
    case Some(m) =>
      StateSettersAreQuiet([ErrorSet(m)]);
    case None =>
      var call := GenerateCall(f.file.value, f.prompt);
      match Thrown(o)
      case Some(m) =>
        AttemptTrace(call, [ErrorSet(m)], ErrorToast(GenerateFailedText));
      case None =>
        AttemptTrace(call, [SummarySet(ReplySummary(o))], SuccessToast(GeneratedText));
  }

  /** `handleSend` on a form, given what its request comes to. */
  function SendStep(f: Form, o: Outcome): Step {
    match SendRejection(f.summary, f.recipients)
    case Some(m) => Step(f.(error := m), [ErrorSet(m)])
    case None => SendAttempt(f, o)
  }

  /** The `try`/`catch`/`finally` part of `handleSend`, for a form whose checks
      passed. */
  function SendAttempt(f: Form, o: Outcome): Step {
    var call := SendCall(f.summary, f.recipients);
    match Thrown(o)
    case Some(m) =>
      Step(f.(loading := false, error := m), Attempt(call, [ErrorSet(m)], ErrorToast(SendFailedText)))
    case None =>
      Step(f.(loading := false, error := ""), Attempt(call, [], SuccessToast(SentText)))
  }

  /** How `handleSend` changes the state: the summary and its storage are
      never touched; only the error and loading cells change. */
  lemma SendStepState(f: Form, o: Outcome)
    ensures var r := SendStep(f, o);
      && r.next.(error := f.error, loading := f.loading) == f
      && (!f.loading ==> !r.next.loading)
      && (f.summary == "" || f.recipients == "" ==> r.next == f.(error := MissingSendInputError))
      && (f.summary != "" && f.recipients != "" && !RecipientsWellFormed(f.recipients) ==>
            r.next == f.(error := EmailFormatError))
      && (SendRejection(f.summary, f.recipients).None? ==> !r.next.loading)
      && (SendRejection(f.summary, f.recipients).None? && Thrown(o).Some? ==>
            r.next.error == Thrown(o).value)
      && (SendRejection(f.summary, f.recipients).None? && Thrown(o).None? ==>
            r.next.error == "")
  {
  }

  /** What `handleSend` does besides changing the state; a passing form sends
      the raw recipients string, neither split nor trimmed. */
  lemma SendTrace(f: Form, o: Outcome)
    ensures var r, rejection := SendStep(f, o), SendRejection(f.summary, f.recipients);
      && (rejection.Some? ==> r.effects == [ErrorSet(rejection.value)] && Silent(r.effects))
      && (rejection.None? ==>
            var call := SendCall(f.summary, f.recipients);
            && |r.effects| >= 5
            && r.effects[..3] == [LoadingSet(true), ErrorSet(""), Posted(call)]
            && Requests(r.effects) == [call]
            && r.effects[|r.effects| - 1] == LoadingSet(false)
            && (forall k :: 0 < k < |r.effects| - 1 ==> !r.effects[k].LoadingSet?)
            && Toasts(r.effects) ==
                 (if Thrown(o).Some? then [ErrorToast(SendFailedText)] else [SuccessToast(SentText)]))
  {
    match SendRejection(f.summary, f.recipients)
    case Some(m) =>
      StateSettersAreQuiet([ErrorSet(m)]);
    case None =>
      var call := SendCall(f.summary, f.recipients);
      match Thrown(o)
      case Some(m) =>
        AttemptTrace(call, [ErrorSet(m)], ErrorToast(SendFailedText));
      case None =>
        AttemptTrace(call, [], SuccessToast(SentText));
  }

  /** An error reply whose message is empty is not recognised as an error: the
      client reports success, and a generate call replaces the summary with
      nothing. */
  lemma EmptyErrorReplyCountsAsSuccess(f: Form)
    requires GenerateRejection(f.file, f.prompt).None?
    ensures var r := GenerateStep(f, Err(""));
      r.next.summary == "" && r.next.error == "" && Toasts(r.effects) == [SuccessToast(GeneratedText)]
  {
    GenerateStepState(f, Err(""));
    GenerateTrace(f, Err(""));
  }

  // ---------------------------------------------------------------------
  // The component as a mutable object
  // ---------------------------------------------------------------------

  /** The component's state cells; each handler sets them one after another,
      as the source does. */
  class App {
    var file: Option<string>
    var prompt: string
    var summary: string
    var recipients: string
    var error: string
    var loading: bool
    var showPreview: bool
    /** The local-storage cell under the key 'summary'. */
    var stored: Option<string>
    /** Every setter call, request and notification of the two handlers, in order. */
    ghost var effects: seq<Effect>

    function State(): Form
      reads this
    {
      Form(file, prompt, summary, recipients, error, loading, showPreview, stored)
    }

    /** Between events no request is in flight, and storage mirrors a
        non-empty summary. */
    ghost predicate Valid()
      reads this
    {
      Mirrored(State()) && !loading
    }

    /** Mounting with `saved` in storage under the key 'summary'. */
    constructor (saved: Option<string>)
      ensures Valid() && State() == Mount(saved) && effects == []
    {
      file, prompt, summary, recipients := None, "", "", "";
      loading, error, showPreview := false, "", true;
      stored := saved;
      effects := [];
      new;
      if saved.Some? && saved.value != "" {
        summary := saved.value;
      }
      // the writing effect sees the restored value and writes it back unchanged
      if summary != "" {
        stored := Some(summary);
      }
    }

    method SetLoading(on: bool)
      modifies this`loading, this`effects
      ensures loading == on && effects == old(effects) + [LoadingSet(on)]
    {
      loading := on;
      effects := effects + [LoadingSet(on)];
    }

    method SetError(message: string)
      modifies this`error, this`effects
      ensures error == message && effects == old(effects) + [ErrorSet(message)]
    {
      error := message;
      effects := effects + [ErrorSet(message)];
    }

    /** `setSummary` from a handler, followed by the writing effect. */
    method SetSummary(text: string)
      modifies this`summary, this`stored, this`effects
      ensures summary == text && stored == (if text != "" then Some(text) else old(stored))
      ensures effects == old(effects) + [SummarySet(text)]
    {
      summary := text;
      effects := effects + [SummarySet(text)];
      if summary != "" {
        stored := Some(summary);
      }
    }

    method Post(request: Request)
      modifies this`effects
      ensures effects == old(effects) + [Posted(request)]
    {
      effects := effects + [Posted(request)];
    }

    method Notify(toast: Toast)
      modifies this`effects
      ensures effects == old(effects) + [Notified(toast)]
    {
      effects := effects + [Notified(toast)];
    }

    /** `handleGenerate`. */
    method Generate(o: Outcome)
      requires Valid()
      modifies this
      ensures Valid()
      ensures State() == GenerateStep(old(State()), o).next
      ensures effects == old(effects) + GenerateStep(old(State()), o).effects
    {
      if file.None? || prompt == "" {
        SetError(MissingInputError);
        return;
      }
      var ext := Ext(file.value);
      if ext !in AllowedExtensions {
        SetError(ExtensionError);
        return;
      }
      GenerateRequest(o);
    }

    /** What `handleGenerate` does once both checks have passed. */
    method GenerateRequest(o: Outcome)
      requires Valid() && file.Some?
      modifies this
      ensures Valid()
      ensures State() == GenerateAttempt(old(State()), o).next
      ensures effects == old(effects) + GenerateAttempt(old(State()), o).effects
    {
      ghost var log := effects;
      var call := GenerateCall(file.value, prompt);
      SetLoading(true);
      SetError("");
      Post(call);
      var failure := Thrown(o);
      if failure.Some? {
        SetError(failure.value);
        Notify(ErrorToast(GenerateFailedText));
        SetLoading(false);
        LogAttempt(log, call, [ErrorSet(failure.value)], ErrorToast(GenerateFailedText));
      } else {
        SetSummary(ReplySummary(o));
        Notify(SuccessToast(GeneratedText));
        SetLoading(false);
        LogAttempt(log, call, [SummarySet(ReplySummary(o))], SuccessToast(GeneratedText));
      }
    }

    /** `handleSend`. */
    method Send(o: Outcome)
      requires Valid()
      modifies this
      ensures Valid()
      ensures State() == SendStep(old(State()), o).next
      ensures effects == old(effects) + SendStep(old(State()), o).effects
    {
      if summary == "" || recipients == "" {
        SetError(MissingSendInputError);
        return;
      }
      if !RecipientsWellFormed(recipients) {
        SetError(EmailFormatError);
        return;
      }
      SendRequest(o);
    }

    /** What `handleSend` does once both checks have passed. */
    method SendRequest(o: Outcome)
      requires Valid()
      modifies this
      ensures Valid()
      ensures State() == SendAttempt(old(State()), o).next
      ensures effects == old(effects) + SendAttempt(old(State()), o).effects
    {
      ghost var log := effects;
      var call := SendCall(summary, recipients);
      SetLoading(true);
      SetError("");
      Post(call);
      var failure := Thrown(o);
      if failure.Some? {
        SetError(failure.value);
        Notify(ErrorToast(SendFailedText));
        SetLoading(false);
        LogAttempt(log, call, [ErrorSet(failure.value)], ErrorToast(SendFailedText));
      } else {
        Notify(SuccessToast(SentText));
        SetLoading(false);
        LogAttempt(log, call, [], SuccessToast(SentText));
      }
    }

    /** The file input: the first selected file's name, or none. */
    method SelectFile(name: Option<string>)
      requires Valid()
      modifies this
      ensures Valid()
      ensures State() == old(State()).(file := name) && effects == old(effects)
    {
      file := name;
    }

    /** Typing in the prompt field. */
    method EditPrompt(text: string)
      requires Valid()
      modifies this
      ensures Valid()
      ensures State() == old(State()).(prompt := text) && effects == old(effects)
    {
      prompt := text;
    }

    /** Choosing one of the canned prompts. */
    method PickSuggestion(k: nat)
      requires Valid() && k < |PromptSuggestions|
      modifies this
      ensures Valid()
      ensures State() == old(State()).(prompt := PromptSuggestions[k]) && effects == old(effects)
    {
      prompt := PromptSuggestions[k];
    }

    /** Editing the summary text area, followed by the writing effect. */
    method EditSummary(text: string)
      requires Valid()
      modifies this
      ensures Valid()
      ensures State() == Persist(old(State()).(summary := text)) && effects == old(effects)
    {
      summary := text;
      if summary != "" {
        stored := Some(summary);
      }
    }

    /** Typing in the recipients field. */
    method EditRecipients(text: string)
      requires Valid()
      modifies this
      ensures Valid()
      ensures State() == old(State()).(recipients := text) && effects == old(effects)
    {
      recipients := text;
    }

    /** The preview button. */
    method TogglePreview()
      requires Valid()
      modifies this
      ensures Valid()
      ensures State() == old(State()).(showPreview := !old(showPreview)) && effects == old(effects)
    {
      showPreview := !showPreview;
    }
  }

  /** Pressing the preview button twice restores the state. */
  method TogglePreviewTwice(app: App)
    requires app.Valid()
    modifies app
    ensures app.Valid()
    ensures app.State() == old(app.State()) && app.effects == old(app.effects)
  {
    app.TogglePreview();
    app.TogglePreview();
  }
}
