/**
 * The helpers of app/components/FileList.tsx: the icon chosen for a MIME
 * type, and the fallbacks of the size and date formatters.
 */
module FileList {
  import opened Wrappers
  import opened Text

  /** The icons `getFileIcon` renders. */
  datatype Icon = GreyDocument | Photo | RedDocument | BlueDocument

  const PdfType := "application/pdf"

  /** `getFileIcon(type)`. */
  function FileIcon(fileType: Option<string>): Icon {
    if fileType.None? || fileType.value == "" then GreyDocument
    else if StartsWith(fileType.value, "image/") then Photo
    else if fileType.value == PdfType then RedDocument
    else if Contains(fileType.value, "word") then BlueDocument
    else GreyDocument
  }

  /**
   * The icon rule, each icon with exactly the types that get it: images
   * first, then the exact PDF type, then anything mentioning `word`; a
   * missing or empty type and every other type get the grey document.
   */
  lemma FileIconRule(fileType: Option<string>)
    ensures var t := if fileType.None? then "" else fileType.value;
      (FileIcon(fileType) == Photo <==> StartsWith(t, "image/")) &&
      (FileIcon(fileType) == RedDocument <==> t == PdfType) &&
      (FileIcon(fileType) == BlueDocument <==> !StartsWith(t, "image/") && t != PdfType && Contains(t, "word")) &&
      (FileIcon(fileType) == GreyDocument <==>
         !StartsWith(t, "image/") && t != PdfType && !Contains(t, "word"))
  {
    var t := if fileType.None? then "" else fileType.value;
    if t == "" {
      assert !Contains(t, "word");
    }
    if t == PdfType {
      assert t[..6][0] == 'a';
    }
  }

  /** An image type that also mentions `word` is still shown as a photo: the image test comes first. */
  lemma ImageTestFirst(rest: string)
    ensures FileIcon(Some("image/" + rest)) == Photo
  {
    assert ("image/" + rest)[..6] == "image/";
  }

  /**
   * `formatFileSize(bytes)` on its first branch: `Some` holds the label for
   * a falsy count; the logarithmic branch is not part of the model and gives
   * `None`.
   */
  function FormatFileSize(bytes: Option<int>): Option<string> {
    if bytes.None? || bytes.value == 0 then Some("0 Bytes") else None
  }

  /** `formatDate(timestamp)` on its first branch, the same way. */
  function FormatDate(timestamp: Option<int>): Option<string> {
    if timestamp.None? || timestamp.value == 0 then Some("Unknown date") else None
  }

  /**
   * A missing or zero byte count shows `0 Bytes`, and a missing or zero
   * timestamp shows `Unknown date`; no other value takes these branches.
   */
  lemma FallbackLabels(bytes: Option<int>, timestamp: Option<int>)
    ensures FormatFileSize(bytes) == Some("0 Bytes") <==> bytes.None? || bytes.value == 0
    ensures FormatDate(timestamp) == Some("Unknown date") <==> timestamp.None? || timestamp.value == 0
  {
  }
}
