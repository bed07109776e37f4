/** `AttachmentDescriber`: classification of an attachment by its content
    type. A missing content type reads as the empty string, as PHP's
    `(string)` cast of null does. */
module Describer {
  import opened Wrappers
  import opened Entity

  /** The content types `isPdf` accepts; the comparison is strict. */
  const PdfMimeTypes: set<string> := {"application/pdf", "application/x-pdf"}

  /** `(string)$attachment->getMimeType()`. */
  function MimeString(mimeType: Option<string>): (r: string)
    ensures mimeType.None? ==> r == ""
    ensures mimeType.Some? ==> r == mimeType.value
  {
    mimeType.GetOr("")
  }

  /** `strpos($haystack, $needle) === 0`: the needle occurs at offset 0. */
  predicate StartsWith(haystack: string, needle: string) {
    needle <= haystack
  }

  /** `isImage`: the content type begins with "image/". */
  predicate IsImage(attachment: Attachment)
    reads attachment
    ensures IsImage(attachment) <==>
      attachment.mimeType.Some? && |attachment.mimeType.value| >= 6 && attachment.mimeType.value[..6] == "image/"
  {
    StartsWith(MimeString(attachment.mimeType), "image/")
  }

  /** `isVideo`: the content type begins with "video/". */
  predicate IsVideo(attachment: Attachment)
    reads attachment
    ensures IsVideo(attachment) <==>
      attachment.mimeType.Some? && |attachment.mimeType.value| >= 6 && attachment.mimeType.value[..6] == "video/"
  {
    StartsWith(MimeString(attachment.mimeType), "video/")
  }

  /** `isPdf`: the content type is one of the two PDF types, compared
      strictly. A missing content type is never a PDF, so the strict test on
      null agrees with the test on its string cast. */
  predicate IsPdf(attachment: Attachment)
    reads attachment
    ensures IsPdf(attachment) <==> MimeString(attachment.mimeType) in PdfMimeTypes
  {
    attachment.mimeType.Some? && attachment.mimeType.value in PdfMimeTypes
  }

  /** No attachment is of two kinds at once. */
  lemma KindsAreExclusive(attachment: Attachment)
    ensures !(IsImage(attachment) && IsVideo(attachment))
    ensures !(IsImage(attachment) && IsPdf(attachment))
    ensures !(IsVideo(attachment) && IsPdf(attachment))
  {
    var m := MimeString(attachment.mimeType);
    if IsPdf(attachment) {
      assert m == "application/pdf" || m == "application/x-pdf";
      assert m[0] == 'a';
    }
  }
}
