/**
 * app/api/files/ServeDownloads/route.ts. GET checks the `filename` query
 * parameter, connects, opens a download stream by name and answers with a
 * Content-Type chosen by the extension and an attachment disposition.
 */
module ServeDownloads {
  import opened Wrappers
  import opened Text
  import opened Store
  import opened Http

  const FilenameRequired := "Filename is required"
  const RetrievalFailed := "Error retrieving file"
  const NotFound := "File not found"
  const PdfType := "application/pdf"
  const OctetStream := "application/octet-stream"

  /** `filename.split('.').pop() === 'pdf' ? 'application/pdf' : 'application/octet-stream'`. */
  function ContentTypeFor(filename: string): string {
    if LastSegment(filename, '.') == "pdf" then PdfType else OctetStream
  }

  /** The name ends in `.pdf`, or is `pdf` itself (no dot at all). */
  predicate PdfName(filename: string) {
    filename == "pdf" || (|filename| >= 4 && filename[|filename| - 4..] == ".pdf")
  }

  /**
   * The extension rule in plain terms: a PDF type exactly for names ending
   * in `.pdf` (lower case) or the bare name `pdf`; every other name is an
   * octet stream.
   */
  lemma ContentTypeRule(filename: string)
    ensures ContentTypeFor(filename) == PdfType <==> PdfName(filename)
    ensures ContentTypeFor(filename) == PdfType || ContentTypeFor(filename) == OctetStream
  {
    var s := filename;
    var r := LastSegment(s, '.');
    LastSegmentSpec(s, '.');
    if r == "pdf" {
      if |r| < |s| {
        assert s[|s| - 4..] == [s[|s| - 4]] + r;
      } else {
        assert s == r;
      }
    }
    if PdfName(s) {
      PdfNameSegment(s);
    }
  }

  /** A name ending in `.pdf`, or `pdf` itself, has the extension `pdf`. */
  lemma PdfNameSegment(s: string)
    requires PdfName(s)
    ensures LastSegment(s, '.') == "pdf"
  {
    if s == "pdf" {
      LastSegmentSpec(s, '.');
    } else {
      var n := |s|;
      assert s == s[..n - 4] + ['.'] + "pdf";
      LastSegmentAfter(s[..n - 4], '.', "pdf");
    }
  }

  /** GET as written: the 404 branch tests a stream handle that the driver never leaves null. */
  function ServeDownload(filename: Option<string>, connection: Connection, files: seq<StoredFile>): Reply<DownloadStream> {
    if filename.None? || filename.value == "" then PlainText(400, FilenameRequired)
    else if connection.Refused? then PlainText(500, RetrievalFailed)
    else
      var handle := OpenDownloadStreamByName(files, filename.value);
      if handle.None? then PlainText(404, NotFound)
      else Attachment(ContentTypeFor(filename.value), AttachmentDisposition(filename.value), handle.value)
  }

  /**
   * The outcomes of GET: 400 exactly for a missing or empty name, before the
   * store is reached; 500 exactly when the connection fails; otherwise an
   * attachment with the extension's type and the unescaped disposition.
   */
  lemma ServeDownloadOutcomes(filename: Option<string>, connection: Connection, files: seq<StoredFile>)
    ensures var r := ServeDownload(filename, connection, files);
      (r == PlainText(400, FilenameRequired) <==> filename.None? || filename.value == "") &&
      (r == PlainText(500, RetrievalFailed) <==> filename.Some? && filename.value != "" && connection.Refused?) &&
      (filename.Some? && filename.value != "" && connection.Connected? ==>
         r.Attachment? && r.disposition == AttachmentDisposition(filename.value) &&
         (r.contentType == PdfType <==> PdfName(filename.value)) &&
         r.stream.filename == filename.value)
  {
    if filename.Some? && filename.value != "" {
      ContentTypeRule(filename.value);
    }
  }

  /**
   * The 404 is unreachable: for a name no record carries, GET still answers
   * 200 with an attachment whose stream has nothing to deliver.
   */
  lemma ServeDownloadMissingFile(name: string, files: seq<StoredFile>)
    requires name != "" && forall f :: f in files ==> f.filename != name
    ensures ServeDownload(Some(name), Connected, files).Status() == 200
    ensures ServeDownload(Some(name), Connected, files).stream.content == None
  {
  }

  /** GET with the evidently intended not-found test: the 404 fires when no record has the name. */
  function ServeDownloadChecked(filename: Option<string>, connection: Connection, files: seq<StoredFile>): Reply<DownloadStream> {
    if filename.None? || filename.value == "" then PlainText(400, FilenameRequired)
    else if connection.Refused? then PlainText(500, RetrievalFailed)
    else match Newest(files, filename.value)
      case None => PlainText(404, NotFound)
      case Some(f) =>
        Attachment(ContentTypeFor(filename.value), AttachmentDisposition(filename.value),
                   DownloadStream(filename.value, Some(f.data)))
  }

  /**
   * With the test corrected, 404 means exactly that no record has the name,
   * and every attachment delivers the bytes of the newest record of that
   * name; everywhere else it answers as the route as written.
   */
  lemma ServeDownloadCheckedOutcomes(filename: Option<string>, connection: Connection, files: seq<StoredFile>)
    ensures var r := ServeDownloadChecked(filename, connection, files);
      (r.Status() == 404 <==>
         filename.Some? && filename.value != "" && connection.Connected? &&
         forall f :: f in files ==> f.filename != filename.value) &&
      (r.Attachment? ==>
         exists k :: 0 <= k < |files| && files[k].filename == filename.value && r.stream.content == Some(files[k].data) &&
           forall j :: k < j < |files| ==> files[j].filename != filename.value) &&
      (r.Status() != 404 ==> r == ServeDownload(filename, connection, files))
  {
  }
}
