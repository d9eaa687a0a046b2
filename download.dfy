/**
 * app/api/files/download.ts. GET checks the `filename` query parameter,
 * connects and streams the file by name as an octet stream, whatever the
 * extension; it has no not-found branch.
 */
module Download {
  import opened Wrappers
  import opened Store
  import opened Http

  const FilenameRequired := "Filename is required"
  const RetrievalFailed := "Error retrieving file"
  const OctetStream := "application/octet-stream"

  function DownloadFile(filename: Option<string>, connection: Connection, files: seq<StoredFile>): Reply<DownloadStream> {
    if filename.None? || filename.value == "" then PlainText(400, FilenameRequired)
    else if connection.Refused? then PlainText(500, RetrievalFailed)
    else Attachment(OctetStream, AttachmentDisposition(filename.value), OpenDownloadStreamByName(files, filename.value).value)
  }

  /**
   * 400 exactly for a missing or empty name, 500 exactly when the connection
   * fails, and otherwise always an octet-stream attachment carrying the
   * newest record of that name, if any.
   */
  lemma DownloadOutcomes(filename: Option<string>, connection: Connection, files: seq<StoredFile>)
    ensures var r := DownloadFile(filename, connection, files);
      (r == PlainText(400, FilenameRequired) <==> filename.None? || filename.value == "") &&
      (r == PlainText(500, RetrievalFailed) <==> filename.Some? && filename.value != "" && connection.Refused?) &&
      (filename.Some? && filename.value != "" && connection.Connected? ==>
         r.Attachment? && r.contentType == OctetStream && r.disposition == AttachmentDisposition(filename.value) &&
         (r.stream.content.None? <==> forall f :: f in files ==> f.filename != filename.value))
  {
  }
}
