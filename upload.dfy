/**
 * app/api/files/upload.ts. POST connects, then writes each file of the form
 * into the `uploads` bucket, one at a time, through a stream adapter that
 * turns the browser stream's reader into a Node readable. Metadata is
 * `{ mimeType, size }`; no owner is recorded.
 */
module UploadRoute {
  import opened Wrappers
  import opened Store
  import opened Http

  /**
   * The reader of a browser `ReadableStream`: each `read()` yields the next
   * chunk, and `done` once all chunks have been delivered.
   */
  class ChunkReader {
    const chunks: seq<seq<byte>>
    var position: nat

    ghost predicate Valid()
      reads this
    {
      position <= |chunks|
    }

    constructor (chunks: seq<seq<byte>>)
      ensures Valid() && this.chunks == chunks && position == 0
    {
      this.chunks := chunks;
      position := 0;
    }

    /** `reader.read()`. */
    method Read() returns (done: bool, value: seq<byte>)
      requires Valid()
      modifies this
      ensures Valid()
      ensures done <==> old(position) == |chunks|
      ensures done ==> position == old(position) && value == []
      ensures !done ==> position == old(position) + 1 && value == chunks[old(position)]
    {
      if position == |chunks| {
        done, value := true, [];
      } else {
        done, value := false, chunks[position];
        position := position + 1;
      }
    }
  }

  /**
   * The Node `Readable` built by `convertReadableStreamToReadable`: each
   * `read()` pulls one chunk from the reader and pushes it, and pushes the
   * end marker (`push(null)`) once the reader is done.
   */
  class StreamAdapter {
    const reader: ChunkReader
    /** Every byte pushed so far, in order. */
    var pushed: seq<byte>
    /** `push(null)` has been called. */
    var ended: bool

    ghost predicate Valid()
      reads this, reader
    {
      reader.Valid() &&
      pushed == Flatten(reader.chunks[..reader.position]) &&
      (ended ==> reader.position == |reader.chunks|)
    }

    constructor (reader: ChunkReader)
      requires reader.Valid() && reader.position == 0
      ensures Valid() && this.reader == reader && !ended
    {
      this.reader := reader;
      pushed := [];
      ended := false;
    }

    /** One `read()` of the readable. */
    method ReadOnce()
      requires Valid() && !ended
      modifies this, reader
      ensures Valid()
      ensures ended ==> pushed == old(pushed)
      ensures !ended ==> reader.position == old(reader.position) + 1
    {
      var done, value := reader.Read();
      if done {
        ended := true;
      } else {
        assert reader.chunks[..reader.position] == reader.chunks[..reader.position - 1] + [value];
        FlattenAppend(reader.chunks[..reader.position - 1], [value]);
        assert Flatten([value]) == value by {
          assert [value][..0] == [];
        }
        pushed := pushed + value;
      }
    }
  }

  /**
   * Piping the adapter to its end: the bytes that come out are the
   * concatenation of the reader's chunks, in order.
   */
  method Drain(chunks: seq<seq<byte>>) returns (bytes: seq<byte>)
    ensures bytes == Flatten(chunks)
  {
    var reader := new ChunkReader(chunks);
    var adapter := new StreamAdapter(reader);
    while !adapter.ended
      invariant adapter.Valid() && adapter.reader == reader && reader.chunks == chunks
      decreases |chunks| - reader.position, if adapter.ended then 0 else 1
    {
      adapter.ReadOnce();
    }
    assert chunks[..|chunks|] == chunks;
    bytes := adapter.pushed;
  }

  /** The metadata upload.ts attaches: `{ mimeType: file.type, size: file.size }`. */
  function UploadMetadata(file: FormFile): Metadata {
    UnownedMetadata(Some(file.fileType), None, Some(file.Size()), None)
  }

  /** The bucket records written for `files` when ids are handed out from `firstId` on. */
  function Records(firstId: ObjectId, files: seq<FormFile>): (r: seq<StoredFile>)
    ensures |r| == |files|
    ensures forall i :: 0 <= i < |files| ==>
      r[i].id == firstId + i && r[i].filename == files[i].name && r[i].data == Flatten(files[i].chunks) &&
      Unowned(r[i]) && r[i].metadata == Some(Metadata(Some(files[i].fileType), None, Some(|r[i].data|), None, None))
  {
    seq(|files|, i requires 0 <= i < |files| =>
      StoredFile(firstId + i, files[i].name, files[i].Size(), None, Some(UploadMetadata(files[i])), None, files[i].Content()))
  }

  /** How many files are written before the fault, if any, interrupts the loop. */
  function Written(files: seq<FormFile>, fault: Option<Fault>): (n: nat)
    ensures n <= |files|
    ensures n < |files| <==> fault.Some? && fault.value.index < |files|
  {
    if fault.Some? && fault.value.index < |files| then fault.value.index else |files|
  }

  const UploadFailed := "Error uploading files"
  const NoFilesUploaded := "No files uploaded"

  /**
   * POST. `fault` is an error emitted by the GridFS upload stream while the
   * `index`-th file is piped into it: the awaited promise rejects, that
   * file's record is never written, and the files stored before it stay.
   * Only the upload stream's `error` event is listened to, so an error of
   * the adapted source stream is not a `fault`: it never settles the promise.
   */
  method Post(connection: Connection, files: seq<FormFile>, fault: Option<Fault>, bucket: Bucket)
    returns (reply: Reply<()>)
    requires bucket.Valid()
    modifies bucket
    ensures bucket.Valid()
    ensures connection.Refused? ==> reply == PlainText(500, UploadFailed) && bucket.files == old(bucket.files)
    ensures connection.Connected? && |files| == 0 ==>
      reply == PlainText(400, NoFilesUploaded) && bucket.files == old(bucket.files)
    ensures connection.Connected? && |files| > 0 ==>
      var n := Written(files, fault);
      bucket.files == old(bucket.files) + Records(old(bucket.nextId), files[..n]) &&
      reply == (if n < |files| then PlainText(500, UploadFailed) else Json(200, true, None))
  {
    if connection.Refused? {
      return PlainText(500, UploadFailed);
    }
    if |files| == 0 {
      return PlainText(400, NoFilesUploaded);
    }
    ghost var firstId := bucket.nextId;
    for i := 0 to |files|
      invariant i <= Written(files, fault)
      invariant bucket.Valid() && bucket.nextId == firstId + i
      invariant bucket.files == old(bucket.files) + Records(firstId, files[..i])
    {
      var file := files[i];
      if fault.Some? && fault.value.index == i {
        return PlainText(500, UploadFailed);
      }
      var bytes := Drain(file.chunks);
      var id := bucket.Put(file.name, bytes, UploadMetadata(file));
      assert Records(firstId, files[..i + 1]) == Records(firstId, files[..i]) + [Records(firstId, files)[i]];
    }
    assert files[..|files|] == files;
    reply := Json(200, true, None);
  }
}
