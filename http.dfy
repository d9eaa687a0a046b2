/**
 * The parts of a route handler's environment that the model keeps: whether the
 * shared database connection could be obtained, and the response a handler
 * returns.
 */
module Http {
  import opened Wrappers

  /** The outcome of `await clientPromise`: connected, or rejected with an error message. */
  datatype Connection = Connected | Refused(message: string)

  /**
   * An exception thrown while the `index`-th file of a request is being
   * transferred, with its message.
   */
  datatype Fault = Fault(index: nat, message: string)

  /**
   * A route's response. `PlainText` is `new Response(text, { status })`;
   * `Json` is a JSON body `{ success, message? }` (the handlers call the text
   * key `message` or `error`); `Attachment` is a 200 response streaming a
   * stored file with the given `Content-Type` and `Content-Disposition`.
   */
  datatype Reply<S> =
    | PlainText(status: int, text: string)
    | Json(status: int, success: bool, message: Option<string>)
    | Attachment(contentType: string, disposition: string, stream: S)
  {
    function Status(): int {
      match this
      case PlainText(s, _) => s
      case Json(s, _, _) => s
      case Attachment(_, _, _) => 200
    }
  }

  // ---------------------------------------------------------------------
  // Content-Disposition

  const AttachmentPrefix := "attachment; filename=\""

  /**
   * `attachment; filename="${filename}"` as the download routes write it:
   * the name is put between quotes with no escaping.
   */
  function AttachmentDisposition(filename: string): string {
    AttachmentPrefix + filename + "\""
  }

  /**
   * The value of a quoted-string in the sense of section 4.1 of RFC 6266
   * (quoted-string as in section 3.2.6 of RFC 7230): the text up to the
   * first unescaped `"`, with `\` quoting the character after it; `None`
   * when no closing quote follows.
   */
  function QuotedValue(s: string): Option<string>
    decreases |s|
  {
    if s == [] then None
    else if s[0] == '"' then Some([])
    else if s[0] == '\\' && |s| >= 2 then
      match QuotedValue(s[2..]) case None => None case Some(v) => Some([s[1]] + v)
    else match QuotedValue(s[1..]) case None => None case Some(v) => Some([s[0]] + v)
  }

  /** The `filename` a recipient reads from an `attachment; filename="…"` header. */
  function DispositionFilename(header: string): Option<string> {
    if |AttachmentPrefix| <= |header| && header[..|AttachmentPrefix|] == AttachmentPrefix
    then QuotedValue(header[|AttachmentPrefix|..])
    else None
  }

  /** A quoted-string body free of `"` and `\` reads back as itself. */
  lemma {:induction false} QuotedValuePlain(v: string, rest: string)
    requires '"' !in v && '\\' !in v
    ensures QuotedValue(v + "\"" + rest) == Some(v)
    decreases |v|
  {
    var s := v + "\"" + rest;
    if v == [] {
      assert s[0] == '"';
    } else {
      assert s[0] == v[0] && v[0] != '"' && v[0] != '\\';
      assert s[1..] == v[1..] + "\"" + rest;
      QuotedValuePlain(v[1..], rest);
      assert [v[0]] + v[1..] == v;
    }
  }

  /** A name without `"` or `\` survives the header: the recipient reads back the same name. */
  lemma DispositionRoundTrip(filename: string)
    requires '"' !in filename && '\\' !in filename
    ensures DispositionFilename(AttachmentDisposition(filename)) == Some(filename)
  {
    var h := AttachmentDisposition(filename);
    assert h[|AttachmentPrefix|..] == filename + "\"" + [];
    QuotedValuePlain(filename, []);
  }

  /**
   * With no escaping, a `"` in the name ends the quoted-string early: the
   * recipient reads only the part before it.
   */
  lemma DispositionQuoteTruncates(head: string, tail: string)
    requires '"' !in head && '\\' !in head
    ensures DispositionFilename(AttachmentDisposition(head + "\"" + tail)) == Some(head)
  {
    var h := AttachmentDisposition(head + "\"" + tail);
    assert h[|AttachmentPrefix|..] == head + "\"" + (tail + "\"");
    QuotedValuePlain(head, tail + "\"");
  }
}
