/**
  The file validator of the document-upload widget: the two constraints a
  candidate file must meet, the fixed rejection messages, and the decision
  itself, checked in the widget's fixed rule order (size first, then format).
 */
module Validation {

  /** A file as the browser hands it over: its name, its size in bytes and its MIME type. */
  datatype CandidateFile = CandidateFile(name: string, size: nat, mimeType: string)

  /** 4.5 × 1024 × 1024 bytes; the product is an exact integer. */
  const MaxSize: nat := 9 * 1024 * 1024 / 2

  /** The MIME types the widget accepts, in the order it lists them. */
  const ValidFormats: seq<string> := ["application/pdf", "image/jpeg", "image/jpg", "image/png"]

  const OversizeMessage: string := "File size should not exceed 4.5MB."
  const FormatMessage: string := "Invalid file format. Please upload a PDF, JPG, JPEG, or PNG file."

  /** The two reasons a file is turned away. */
  datatype Rejection = OversizeFile | UnsupportedFormat {
    /** The text the widget shows for this reason. */
    function Message(): (m: string)
      ensures m != ""
      ensures m == OversizeMessage <==> this == OversizeFile
      ensures m == FormatMessage <==> this == UnsupportedFormat
    {
      match this
      case OversizeFile => OversizeMessage
      case UnsupportedFormat => FormatMessage
    }
  }

  datatype Verdict = Accepted | Rejected(reason: Rejection)

  /**
    The validator's decision. The size rule runs first, so an oversized file
    is reported as oversized whatever its type; the bound is inclusive.
   */
  function Validate(file: CandidateFile): (v: Verdict)
    ensures v == Rejected(OversizeFile) <==> file.size > MaxSize
    ensures v == Rejected(UnsupportedFormat) <==> file.size <= MaxSize && file.mimeType !in ValidFormats
    ensures v == Accepted <==> file.size <= MaxSize && file.mimeType in ValidFormats
  {
    if file.size > MaxSize then Rejected(OversizeFile)
    else if file.mimeType !in ValidFormats then Rejected(UnsupportedFormat)
    else Accepted
  }

  /** `s.startsWith(prefix)` on strings. */
  predicate StartsWith(s: string, prefix: string) {
    |prefix| <= |s| && s[..|prefix|] == prefix
  }

  /**
    Which accepted files get an image thumbnail: every accepted type except
    PDF starts with "image/", so among accepted files the thumbnail is
    chosen exactly for the three image formats.
   */
  lemma AcceptedImageIffNotPdf(file: CandidateFile)
    requires Validate(file) == Accepted
    ensures StartsWith(file.mimeType, "image/") <==> file.mimeType != "application/pdf"
    ensures StartsWith(file.mimeType, "image/") <==> file.mimeType in ["image/jpeg", "image/jpg", "image/png"]
  {
    var t := file.mimeType;
    if t == "application/pdf" {
      assert t[0] == 'a';
    } else {
      assert t in ["image/jpeg", "image/jpg", "image/png"];
      assert t[..6] == "image/";
    }
  }

  /** The size bound is a strict upper bound only: both ends of the range pass. */
  lemma BoundaryFilesAccepted(name: string, mimeType: string)
    requires mimeType in ValidFormats
    ensures Validate(CandidateFile(name, MaxSize, mimeType)) == Accepted
    ensures Validate(CandidateFile(name, 0, mimeType)) == Accepted
    ensures Validate(CandidateFile(name, MaxSize + 1, mimeType)) == Rejected(OversizeFile)
  {
  }
}
