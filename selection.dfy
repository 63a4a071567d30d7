/**
  The widget's selection state as a value: the four fields the component
  keeps, what each handler makes of them, the invariant they keep, and the
  three-way view (empty, file selected, file rejected) the fields encode.
  The class in module Widget is proved against these functions.
 */
module Selection {
  import opened Validation

  datatype Option<T> = None | Some(value: T)

  /** The opaque handle the browser returns for a file's bytes (an object URL). */
  type ObjectUrl = string

  /** What the preview slot holds: nothing, a thumbnail of the file's bytes, or the generic document glyph. */
  datatype Preview = NoPreview | Image(url: ObjectUrl) | Generic

  /** The component's four state fields. */
  datatype UploadState = UploadState(
    errorMessage: string,
    filePreviewVisible: bool,
    filePreviewContent: Preview,
    fileName: string)

  /** The state when the widget mounts. */
  const Initial := UploadState("", false, NoPreview, "")

  /**
    What the fields can hold in any reachable state: a visible preview comes
    with no error and an actual thumbnail or glyph; a hidden one with no name
    and no preview; and the error is empty or one of the two rejection messages.
   */
  ghost predicate Inv(s: UploadState) {
    && (s.filePreviewVisible ==> s.errorMessage == "" && s.filePreviewContent != NoPreview)
    && (!s.filePreviewVisible ==> s.fileName == "" && s.filePreviewContent == NoPreview)
    && (s.errorMessage == "" || s.errorMessage == OversizeMessage || s.errorMessage == FormatMessage)
  }

  /** The preview for an accepted file: a thumbnail for image types, the glyph otherwise. */
  function GeneratePreview(file: CandidateFile, url: ObjectUrl): (p: Preview)
    ensures p != NoPreview
    ensures p.Image? <==> StartsWith(file.mimeType, "image/")
    ensures p.Image? ==> p.url == url
  {
    if StartsWith(file.mimeType, "image/") then Image(url) else Generic
  }

  /** Hides the preview and forgets the file; the error message is left as it is. */
  function ResetFilePreview(s: UploadState): (t: UploadState)
    ensures !t.filePreviewVisible && t.fileName == "" && t.filePreviewContent == NoPreview
    ensures t.errorMessage == s.errorMessage
  {
    s.(filePreviewContent := NoPreview, fileName := "", filePreviewVisible := false)
  }

  /**
    Handling a list of dropped or picked files. Only the first file is
    looked at; `url` is the handle the browser would return for it.
   */
  function HandleFiles(s: UploadState, files: seq<CandidateFile>, url: ObjectUrl): (t: UploadState)
    ensures |files| == 0 ==> t == s
    ensures |files| > 0 ==> (t.filePreviewVisible <==> Validate(files[0]) == Accepted)
    ensures |files| > 0 ==> (t.errorMessage == "" <==> Validate(files[0]) == Accepted)
  {
    if |files| == 0 then s
    else match Validate(files[0])
      case Accepted => UploadState("", true, GeneratePreview(files[0], url), files[0].name)
      case Rejected(reason) => ResetFilePreview(s.(errorMessage := reason.Message()))
  }

  /** Removing the selected file. */
  function HandleRemoveFile(s: UploadState): (t: UploadState)
    ensures !t.filePreviewVisible && t.fileName == "" && t.filePreviewContent == NoPreview
    ensures t.errorMessage == s.errorMessage
  {
    ResetFilePreview(s)
  }

  /** What pressing Submit reports; it never changes the state. */
  datatype SubmitOutcome = Blocked | Submitted {
    function Notice(): (n: string)
      ensures n != ""
      ensures n == "Please select a document for upload." <==> this == Blocked
    {
      match this
      case Blocked => "Please select a document for upload."
      case Submitted => "Documents submitted successfully!"
    }
  }

  function HandleSubmit(s: UploadState): (o: SubmitOutcome)
    ensures o == Blocked <==> !s.filePreviewVisible
  {
    if !s.filePreviewVisible then Blocked else Submitted
  }

  // ---------------------------------------------------------------------------
  // One handler call at a time

  lemma InitialValid()
    ensures Inv(Initial)
    ensures HandleSubmit(Initial) == Blocked
  {
  }

  /** A 2 MB PNG is shown with a thumbnail, a 5 MB PDF is too large, a 1 MB text file has the wrong type, a PDF gets the glyph. */
  lemma UploadScenarios(url: ObjectUrl)
    ensures HandleFiles(Initial, [CandidateFile("id.png", 2 * 1024 * 1024, "image/png")], url)
         == UploadState("", true, Image(url), "id.png")
    ensures HandleFiles(Initial, [CandidateFile("a.pdf", 5 * 1024 * 1024, "application/pdf")], url)
         == UploadState(OversizeMessage, false, NoPreview, "")
    ensures HandleFiles(Initial, [CandidateFile("a.txt", 1024 * 1024, "text/plain")], url)
         == UploadState(FormatMessage, false, NoPreview, "")
    ensures HandleFiles(Initial, [CandidateFile("a.pdf", 1024, "application/pdf")], url).filePreviewContent == Generic
  {
    assert "image/png"[..6] == "image/";
    assert "application/pdf"[0] != 'i';
  }

  /** An accepted first file is shown, named, previewed by type, and clears any error. */
  lemma AcceptFirstFile(s: UploadState, files: seq<CandidateFile>, url: ObjectUrl)
    requires |files| > 0 && Validate(files[0]) == Accepted
    ensures var t := HandleFiles(s, files, url);
      && t.filePreviewVisible
      && t.fileName == files[0].name
      && t.errorMessage == ""
      && (t.filePreviewContent == Image(url) <==> StartsWith(files[0].mimeType, "image/"))
      && (t.filePreviewContent == Generic <==> !StartsWith(files[0].mimeType, "image/"))
      && Inv(t)
  {
  }

  /** A rejected first file clears any selection and leaves its reason as the error. */
  lemma RejectFirstFile(s: UploadState, files: seq<CandidateFile>, url: ObjectUrl, reason: Rejection)
    requires |files| > 0 && Validate(files[0]) == Rejected(reason)
    ensures var t := HandleFiles(s, files, url);
      && !t.filePreviewVisible
      && t.fileName == ""
      && t.filePreviewContent == NoPreview
      && t.errorMessage == reason.Message()
      && Inv(t)
  {
  }

  /** Files after the first are never consulted, and an empty list changes nothing. */
  lemma OnlyFirstFileMatters(s: UploadState, files: seq<CandidateFile>, others: seq<CandidateFile>, url: ObjectUrl)
    requires |files| > 0
    ensures HandleFiles(s, files, url) == HandleFiles(s, [files[0]] + others, url)
    ensures HandleFiles(s, [], url) == s
  {
  }

  /**
    Removing twice is the same as removing once; and removing while a file
    is shown, the only time the Delete control is rendered, always returns
    the widget to its mount state.
   */
  lemma RemoveFileEffect(s: UploadState)
    ensures HandleRemoveFile(HandleRemoveFile(s)) == HandleRemoveFile(s)
    ensures Inv(s) && s.filePreviewVisible ==> HandleRemoveFile(s) == Initial
  {
  }

  /** Every handler keeps the invariant. */
  lemma HandlersPreserveInv(s: UploadState, files: seq<CandidateFile>, url: ObjectUrl)
    requires Inv(s)
    ensures Inv(HandleFiles(s, files, url))
    ensures Inv(HandleRemoveFile(s))
  {
    if |files| > 0 {
      match Validate(files[0])
      case Accepted =>
      case Rejected(reason) =>
        assert reason.Message() == OversizeMessage || reason.Message() == FormatMessage;
    }
  }

  // ---------------------------------------------------------------------------
  // The three-way view of the fields

  /** The selection as the widget presents it: nothing chosen, a file shown, or a rejection reason shown. */
  datatype Phase = Empty | Selected(name: string, preview: Preview) | RejectedFile(reason: Rejection)

  predicate WellFormedPhase(p: Phase) {
    p.Selected? ==> p.preview != NoPreview
  }

  function FromPhase(p: Phase): UploadState {
    match p
    case Empty => Initial
    case Selected(name, preview) => UploadState("", true, preview, name)
    case RejectedFile(reason) => UploadState(reason.Message(), false, NoPreview, "")
  }

  ghost function ToPhase(s: UploadState): Phase
    requires Inv(s)
  {
    if s.filePreviewVisible then Selected(s.fileName, s.filePreviewContent)
    else if s.errorMessage == "" then Empty
    else if s.errorMessage == OversizeMessage then RejectedFile(OversizeFile)
    else RejectedFile(UnsupportedFormat)
  }

  /**
    The four fields under the invariant and the three-way view are the same
    information: each determines the other, so the widget is always in
    exactly one of the three phases.
   */
  lemma PhaseRoundTrip(s: UploadState, p: Phase)
    ensures Inv(s) ==> FromPhase(ToPhase(s)) == s
    ensures WellFormedPhase(p) ==> Inv(FromPhase(p)) && ToPhase(FromPhase(p)) == p
  {
    if WellFormedPhase(p) {
      match p
      case Empty =>
      case Selected(_, _) =>
      case RejectedFile(reason) =>
        assert reason.Message() != "";
    }
  }

  /**
    The handlers in terms of phases: an accepted file always replaces a
    previous rejection, a rejection always replaces a previous selection,
    and removing a file empties a selection but keeps a rejection reason.
   */
  lemma PhaseTransitions(s: UploadState, files: seq<CandidateFile>, url: ObjectUrl)
    requires Inv(s)
    ensures Inv(HandleFiles(s, files, url)) && Inv(HandleRemoveFile(s))
    ensures |files| > 0 && Validate(files[0]) == Accepted ==>
      ToPhase(HandleFiles(s, files, url)) == Selected(files[0].name, GeneratePreview(files[0], url))
    ensures |files| > 0 && Validate(files[0]).Rejected? ==>
      ToPhase(HandleFiles(s, files, url)) == RejectedFile(Validate(files[0]).reason)
    ensures ToPhase(HandleRemoveFile(s)) == if ToPhase(s).RejectedFile? then ToPhase(s) else Empty
  {
    HandlersPreserveInv(s, files, url);
  }

  // ---------------------------------------------------------------------------
  // Any sequence of user actions

  /** A user action the widget reacts to. */
  datatype Event = PickFiles(files: seq<CandidateFile>, url: ObjectUrl) | RemoveFile | Submit

  function Step(s: UploadState, e: Event): UploadState {
    match e
    case PickFiles(files, url) => HandleFiles(s, files, url)
    case RemoveFile => HandleRemoveFile(s)
    case Submit => s
  }

  function Run(s: UploadState, events: seq<Event>): UploadState
    decreases |events|
  {
    if events == [] then s else Run(Step(s, events[0]), events[1..])
  }

  /** The state reachable from mounting by any sequence of actions keeps the invariant. */
  lemma {:induction false} RunPreservesInv(s: UploadState, events: seq<Event>)
    requires Inv(s)
    ensures Inv(Run(s, events))
    decreases |events|
  {
    if events != [] {
      var e := events[0];
      match e {
        case PickFiles(files, url) => HandlersPreserveInv(s, files, url);
        case RemoveFile => HandlersPreserveInv(s, [], "");
        case Submit =>
      }
      RunPreservesInv(Step(s, e), events[1..]);
    }
  }

  /** An action that can change what is shown: a removal, or a pick with at least one file. */
  predicate Decisive(e: Event) {
    e.RemoveFile? || (e.PickFiles? && |e.files| > 0)
  }

  /** The last decisive action of a sequence, if there is one. */
  function LastDecisive(events: seq<Event>): (r: Option<Event>)
    ensures r.Some? ==> Decisive(r.value) && r.value in events
    decreases |events|
  {
    if events == [] then None
    else
      var rest := LastDecisive(events[1..]);
      if rest.Some? then rest
      else if Decisive(events[0]) then Some(events[0])
      else None
  }

  /**
    A file is shown after any sequence of actions exactly when the last
    decisive action picked files whose first one was accepted; it is then that
    file's name that is shown, with no error. Without a decisive action the
    starting state is kept.
   */
  lemma {:induction false} RunShowsLastAccepted(s: UploadState, events: seq<Event>)
    ensures var t := Run(s, events);
      match LastDecisive(events)
      case None => t == s
      case Some(e) =>
        (e.RemoveFile? ==> !t.filePreviewVisible && t.fileName == "") &&
        (e.PickFiles? ==>
          && (t.filePreviewVisible <==> Validate(e.files[0]) == Accepted)
          && (t.filePreviewVisible ==> t.fileName == e.files[0].name && t.errorMessage == ""))
    decreases |events|
  {
    if events != [] {
      RunShowsLastAccepted(Step(s, events[0]), events[1..]);
    }
  }
}
