/**
 * app/api/files/DeleteFiles/route.ts. DELETE connects, reads `fileId` from
 * the JSON body and runs a guard chain: a falsy id is a 400, an id the
 * ObjectId constructor rejects throws (500), an id with no record is a 404,
 * and otherwise the record is removed from the `uploads` bucket.
 */
module DeleteFiles {
  import opened Wrappers
  import opened Text
  import opened Store
  import opened Http

  /** The message bson's ObjectId constructor throws for a string it cannot read. */
  const MalformedIdMessage := "input must be a 24 character hex string, 12 byte Uint8Array, or an integer"
  const IdRequired := "File ID is required"
  const NotFound := "File not found"

  /** What one DELETE request answers and what the bucket holds afterwards. */
  datatype Outcome = Outcome(reply: Reply<()>, files: seq<StoredFile>)

  /** The route as a function of the request and the stored records. */
  function DeleteOutcome(connection: Connection, fileId: Option<string>, files: seq<StoredFile>): Outcome {
    if connection.Refused? then Outcome(Json(500, false, Some(connection.message)), files)
    else if fileId.None? || fileId.value == "" then Outcome(PlainText(400, IdRequired), files)
    else match ParseObjectId(fileId.value)
      case None => Outcome(Json(500, false, Some(MalformedIdMessage)), files)
      case Some(id) =>
        if WithId(files, id) == [] then Outcome(PlainText(404, NotFound), files)
        else Outcome(Json(200, true, None), WithoutId(files, id))
  }

  /** DELETE, run against the bucket. */
  method Delete(connection: Connection, fileId: Option<string>, bucket: Bucket) returns (reply: Reply<()>)
    requires bucket.Valid()
    modifies bucket
    ensures bucket.Valid() && bucket.nextId == old(bucket.nextId)
    ensures reply == DeleteOutcome(connection, fileId, old(bucket.files)).reply
    ensures bucket.files == DeleteOutcome(connection, fileId, old(bucket.files)).files
  {
    if connection.Refused? {
      return Json(500, false, Some(connection.message));
    }
    if fileId.None? || fileId.value == "" {
      return PlainText(400, IdRequired);
    }
    var objectId := ParseObjectId(fileId.value);
    if objectId.None? {
      return Json(500, false, Some(MalformedIdMessage));
    }
    var matching := WithId(bucket.files, objectId.value);
    if |matching| == 0 {
      return PlainText(404, NotFound);
    }
    var _ := bucket.Delete(objectId.value);
    reply := Json(200, true, None);
  }

  /**
   * The guard chain: only a success changes the bucket; a failed connection
   * is a 500 with its error; a missing or empty id is the one 400; a
   * malformed id is a 500 with BSON's message, not a 400; an id of no record
   * is a 404.
   */
  lemma DeleteGuards(connection: Connection, fileId: Option<string>, files: seq<StoredFile>)
    ensures var o := DeleteOutcome(connection, fileId, files);
      (o.reply.Status() != 200 ==> o.files == files) &&
      (connection.Refused? ==> o == Outcome(Json(500, false, Some(connection.message)), files)) &&
      (o.reply.Status() == 400 <==> connection.Connected? && (fileId.None? || fileId.value == "")) &&
      (connection.Connected? && fileId.Some? && fileId.value != "" && ParseObjectId(fileId.value).None? ==>
         o.reply == Json(500, false, Some(MalformedIdMessage))) &&
      (o.reply.Status() == 404 <==>
         connection.Connected? && fileId.Some? && ParseObjectId(fileId.value).Some? &&
         forall f :: f in files ==> f.id != ParseObjectId(fileId.value).value)
  {
    if connection.Connected? && fileId.Some? && ParseObjectId(fileId.value).Some? {
      var id := ParseObjectId(fileId.value).value;
      if WithId(files, id) != [] {
        assert WithId(files, id)[0] in files;
      } else {
        assert forall f :: f in files ==> f.id != id;
      }
    }
  }

  /**
   * Deleting a stored record by its printed id removes exactly that record
   * and leaves the others, in order.
   */
  lemma DeleteRemovesExactly(files: seq<StoredFile>, k: nat)
    requires k < |files| && DistinctIds(files) && files[k].id < Pow(16, ObjectIdDigits)
    ensures DeleteOutcome(Connected, Some(ObjectIdToString(files[k].id)), files)
         == Outcome(Json(200, true, None), files[..k] + files[k + 1..])
  {
    ObjectIdRoundTrip(files[k].id);
    assert files[k] in WithId(files, files[k].id);
    WithoutPresentId(files, k);
  }

  /** A second delete of the same id finds nothing: success, then 404. */
  lemma DeleteTwice(files: seq<StoredFile>, fileId: string)
    requires DeleteOutcome(Connected, Some(fileId), files).reply.Status() == 200
    ensures var after := DeleteOutcome(Connected, Some(fileId), files).files;
      DeleteOutcome(Connected, Some(fileId), after) == Outcome(PlainText(404, NotFound), after)
  {
    var id := ParseObjectId(fileId).value;
    WithIdAbsent(WithoutId(files, id), id);
  }

  /** A successful delete keeps every record with another id. */
  lemma DeleteKeepsOthers(files: seq<StoredFile>, fileId: string, f: StoredFile)
    requires DeleteOutcome(Connected, Some(fileId), files).reply.Status() == 200
    requires f in files && f.id != ParseObjectId(fileId).value
    ensures f in DeleteOutcome(Connected, Some(fileId), files).files
  {
  }
}
