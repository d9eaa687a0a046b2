/**
 * app/api/files/route.ts. POST stores a multipart upload twice over: first
 * one metadata document per file in the `file_metadata` collection (all of
 * them, before any bytes move), then each file's bytes in the `uploads`
 * bucket. GET returns every metadata document, with no identity check.
 * Neither write records who uploaded the file.
 */
module FilesRoute {
  import opened Wrappers
  import opened Store
  import opened Http
  import DisplayFiles
  import Auth

  /** A document of the `file_metadata` collection. */
  datatype MetadataDoc = MetadataDoc(filename: string, size: nat, fileType: string, uploadedAt: int)

  /** `files.map(...)`: one document per file, in order, stamped with the request time `now`. */
  function MetadataFor(files: seq<FormFile>, now: int): (docs: seq<MetadataDoc>)
    ensures |docs| == |files|
    ensures forall i :: 0 <= i < |files| ==>
      docs[i].filename == files[i].name && docs[i].size == files[i].Size() && docs[i].fileType == files[i].fileType &&
      docs[i].uploadedAt == now
  {
    seq(|files|, i requires 0 <= i < |files| => MetadataDoc(files[i].name, files[i].Size(), files[i].fileType, now))
  }

  /** The `file_metadata` collection. */
  class MetadataCollection {
    var docs: seq<MetadataDoc>

    constructor (initial: seq<MetadataDoc>)
      ensures docs == initial
    {
      docs := initial;
    }

    /** `insertMany(batch)`: the batch is appended in order. */
    method InsertMany(batch: seq<MetadataDoc>)
      modifies this
      ensures docs == old(docs) + batch
    {
      docs := docs + batch;
    }
  }

  /** The bucket metadata route.ts attaches: `{ type, uploadedAt }`, no owner. */
  function BucketMetadata(file: FormFile, now: int): Metadata {
    UnownedMetadata(None, Some(file.fileType), None, Some(now))
  }

  /** The bucket records written for `files` when ids are handed out from `firstId` on. */
  function Records(firstId: ObjectId, files: seq<FormFile>, now: int): seq<StoredFile> {
    seq(|files|, i requires 0 <= i < |files| =>
      StoredFile(firstId + i, files[i].name, files[i].Size(), None, Some(BucketMetadata(files[i], now)), None, files[i].Content()))
  }

  /**
   * Each file gets its own record, with the next fresh id, under its own
   * name, holding its bytes, with no owner key and no content type, and
   * with metadata holding only the type and the upload time.
   */
  lemma RecordsFaithful(firstId: ObjectId, files: seq<FormFile>, now: int, i: nat)
    requires i < |files|
    ensures |Records(firstId, files, now)| == |files|
    ensures var r := Records(firstId, files, now)[i];
      r.id == firstId + i && r.filename == files[i].name && r.data == files[i].Content() && r.length == |r.data| &&
      Unowned(r) && r.contentType == None &&
      r.metadata == Some(Metadata(None, Some(files[i].fileType), None, Some(now), None))
    ensures forall j :: 0 <= j < |files| && j != i ==> Records(firstId, files, now)[j].id != Records(firstId, files, now)[i].id
  {
  }

  /** How many files are written before the fault, if any, interrupts the loop. */
  function Written(files: seq<FormFile>, fault: Option<Fault>): nat {
    if fault.Some? && fault.value.index < |files| then fault.value.index else |files|
  }

  const NoFilesError := "No files were uploaded"
  const UploadedMessage := "Files uploaded successfully"

  /**
   * POST. `now` is the request time (`new Date()`); `fault` is an exception
   * raised while the bytes of one file are read (`file.arrayBuffer()`).
   */
  method Post(files: seq<FormFile>, now: int, connection: Connection, fault: Option<Fault>,
               collection: MetadataCollection, bucket: Bucket) returns (reply: Reply<()>)
    requires bucket.Valid()
    modifies collection, bucket
    ensures bucket.Valid()
    ensures |files| == 0 ==>
      reply == Json(400, false, Some(NoFilesError)) &&
      collection.docs == old(collection.docs) && bucket.files == old(bucket.files)
    ensures |files| > 0 && connection.Refused? ==>
      reply == Json(500, false, Some(connection.message)) &&
      collection.docs == old(collection.docs) && bucket.files == old(bucket.files)
    ensures |files| > 0 && connection.Connected? ==>
      var n := Written(files, fault);
      collection.docs == old(collection.docs) + MetadataFor(files, now) &&
      bucket.files == old(bucket.files) + Records(old(bucket.nextId), files[..n], now) &&
      reply == (if n < |files| then Json(500, false, Some(fault.value.message)) else Json(200, true, Some(UploadedMessage)))
  {
    if |files| == 0 {
      return Json(400, false, Some(NoFilesError));
    }
    var metadata := MetadataFor(files, now);
    if connection.Refused? {
      return Json(500, false, Some(connection.message));
    }
    collection.InsertMany(metadata);
    ghost var firstId := bucket.nextId;
    var i := 0;
    while i < |files|
      invariant 0 <= i <= Written(files, fault)
      invariant bucket.Valid() && bucket.nextId == firstId + i
      invariant bucket.files == old(bucket.files) + Records(firstId, files[..i], now)
      invariant collection.docs == old(collection.docs) + metadata
    {
      if fault.Some? && fault.value.index == i {
        return Json(500, false, Some(fault.value.message));
      }
      var file := files[i];
      var id := bucket.Put(file.name, file.Content(), BucketMetadata(file, now));
      assert Records(firstId, files[..i + 1], now) == Records(firstId, files[..i], now) + [Records(firstId, files, now)[i]];
      i := i + 1;
    }
    assert files[..i] == files;
    reply := Json(200, true, Some(UploadedMessage));
  }

  /** The JSON answer of GET. */
  datatype ListReply = ListReply(status: int, success: bool, files: seq<MetadataDoc>, error: Option<string>)

  /** GET: every metadata document, whoever asks. */
  function Get(connection: Connection, docs: seq<MetadataDoc>): ListReply {
    if connection.Refused? then ListReply(500, false, [], Some("Error retrieving files"))
    else ListReply(200, true, docs, None)
  }

  /**
   * After a successful POST, GET lists the earlier documents followed by one
   * document per uploaded file, in upload order.
   */
  lemma GetAfterPost(before: seq<MetadataDoc>, files: seq<FormFile>, now: int, i: nat)
    requires i < |files|
    ensures var r := Get(Connected, before + MetadataFor(files, now));
      r.status == 200 && |r.files| == |before| + |files| && r.files[..|before|] == before &&
      r.files[|before| + i].filename == files[i].name && r.files[|before| + i].size == files[i].Size()
  {
  }

  /**
   * No upload of this route shows in the displayFiles listing of a user with
   * an email, a name and an id: the records it adds change no owner query's
   * answer.
   */
  lemma UploadsNeverListed(stored: seq<StoredFile>, firstId: ObjectId, files: seq<FormFile>, now: int, user: Auth.SessionUser)
    requires DisplayFiles.KnownUser(user)
    ensures DisplayFiles.FirstNonEmpty(stored + Records(firstId, files, now), user, DisplayFiles.Queries)
         == DisplayFiles.FirstNonEmpty(stored, user, DisplayFiles.Queries)
  {
    DisplayFiles.KnownUserAllPresent(user);
    DisplayFiles.FirstNonEmptyIgnoresUnowned(stored, Records(firstId, files, now), user, DisplayFiles.Queries);
  }

  /**
   * A user whose session has no email is shown every upload of this route,
   * whoever made it.
   */
  lemma UploadsListedWithoutEmail(stored: seq<StoredFile>, firstId: ObjectId, files: seq<FormFile>, now: int, user: Auth.SessionUser)
    requires user.email.None?
    ensures forall i :: 0 <= i < |files| ==>
      Records(firstId, files, now)[i] in DisplayFiles.FirstNonEmpty(stored + Records(firstId, files, now), user, DisplayFiles.Queries)
  {
    var added := Records(firstId, files, now);
    forall i | 0 <= i < |files|
      ensures added[i] in DisplayFiles.FirstNonEmpty(stored + added, user, DisplayFiles.Queries)
    {
      assert added[i] == (stored + added)[|stored| + i];
      DisplayFiles.MissingEmailListsUnowned(stored + added, user, added[i]);
    }
  }
}
