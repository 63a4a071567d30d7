/**
  The upload component itself: an object holding the four state fields,
  whose handlers update them one assignment at a time. Each handler is
  proved to leave exactly the state the matching function of module
  Selection describes, and to keep the invariant Selection.Inv.
 */
module Widget {
  import opened Validation
  import opened Selection

  /** The hidden file-selection control; the component only ever clears its retained value. */
  class FileInput {
    var value: string

    constructor ()
      ensures value == ""
    {
      value := "";
    }
  }

  class DocumentUpload {
    var errorMessage: string
    var filePreviewVisible: bool
    var filePreviewContent: Preview
    var fileName: string
    /** The input control the component owns a handle to. */
    const fileInput: FileInput

    /** The four fields as a value. */
    function State(): UploadState
      reads this
    {
      UploadState(errorMessage, filePreviewVisible, filePreviewContent, fileName)
    }

    ghost predicate Valid()
      reads this
    {
      Inv(State())
    }

    constructor (input: FileInput)
      ensures Valid() && State() == Initial && fileInput == input
    {
      errorMessage := "";
      filePreviewVisible := false;
      filePreviewContent := NoPreview;
      fileName := "";
      fileInput := input;
    }

    /**
      Runs the two rules in order and reports whether the file passes; on a
      rejection the reason's message is written to the error field at once.
     */
    method ValidateFile(file: CandidateFile) returns (ok: bool)
      modifies this`errorMessage
      ensures ok <==> Validate(file) == Accepted
      ensures errorMessage == if ok then old(errorMessage) else Validate(file).reason.Message()
    {
      if file.size > MaxSize {
        errorMessage := OversizeMessage;
        return false;
      }
      if file.mimeType !in ValidFormats {
        errorMessage := FormatMessage;
        return false;
      }
      return true;
    }

    method ResetFilePreview()
      modifies this
      ensures State() == Selection.ResetFilePreview(old(State()))
    {
      filePreviewContent := NoPreview;
      fileName := "";
      filePreviewVisible := false;
    }

    /** `url` is the handle the browser would hand out for the first file's bytes. */
    method HandleFiles(files: seq<CandidateFile>, url: ObjectUrl)
      requires Valid()
      modifies this
      ensures Valid()
      ensures State() == Selection.HandleFiles(old(State()), files, url)
    {
      HandlersPreserveInv(State(), files, url);
      if |files| > 0 {
        var file := files[0];
        var ok := ValidateFile(file);
        if ok {
          filePreviewContent := GeneratePreview(file, url);
          fileName := file.name;
          filePreviewVisible := true;
          errorMessage := "";
        } else {
          ResetFilePreview();
        }
      }
    }

    method HandleRemoveFile()
      requires Valid()
      modifies this, fileInput
      ensures Valid()
      ensures State() == Selection.HandleRemoveFile(old(State()))
      ensures fileInput.value == ""
    {
      HandlersPreserveInv(State(), [], "");
      ResetFilePreview();
      fileInput.value := "";
    }

    /** Changes nothing; reports whether submission is blocked for want of a file. */
    method HandleSubmit() returns (outcome: SubmitOutcome)
      ensures outcome == Blocked <==> !filePreviewVisible
      ensures outcome.Notice() == if filePreviewVisible then "Documents submitted successfully!"
                                  else "Please select a document for upload."
    {
      if !filePreviewVisible {
        return Blocked;
      }
      return Submitted;
    }
  }
}
