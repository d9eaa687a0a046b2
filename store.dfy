/**
 * The GridFS bucket `uploads` as the routes see it: the `uploads.files`
 * collection, one record per stored file, in insertion order, each with its
 * bytes. Chunking, indexes and the query engine are not modelled: a query is
 * a predicate over records and a result keeps the stored order.
 */
module Store {
  import opened Wrappers
  import opened Text

  newtype byte = x: int | 0 <= x < 256

  // ---------------------------------------------------------------------
  // Object ids

  /** A MongoDB ObjectId, read as the number its 12 bytes spell. */
  type ObjectId = nat

  /** The number of hexadecimal digits of an ObjectId's string form. */
  const ObjectIdDigits: nat := 24

  /** `id.toString()`: 24 lower-case hexadecimal digits. */
  function ObjectIdToString(id: ObjectId): string {
    HexFixed(id, ObjectIdDigits)
  }

  /** `new ObjectId(s)` for a string: exactly 24 hexadecimal digits of either case, else it throws. */
  function ParseObjectId(s: string): Option<ObjectId> {
    if |s| == ObjectIdDigits && AllDigits(s, 16) then Some(DigitsValue(s, 16)) else None
  }

  /** The string form of an id parses back to that id. */
  lemma ObjectIdRoundTrip(id: ObjectId)
    requires id < Pow(16, ObjectIdDigits)
    ensures ParseObjectId(ObjectIdToString(id)) == Some(id)
  {
    HexFixedRoundTrip(id, ObjectIdDigits);
  }

  /** A string the constructor accepts is the string form of its id, up to letter case. */
  lemma ParsedObjectIdPrints(s: string)
    requires ParseObjectId(s).Some?
    ensures ParseObjectId(s).value < Pow(16, ObjectIdDigits)
    ensures ObjectIdToString(ParseObjectId(s).value) == ToLower(s)
  {
    HexFixedOfValue(s);
  }

  // ---------------------------------------------------------------------
  // Records

  /**
   * What an `uploadedBy` key may hold: an object with optional `email`,
   * `name` and `id` keys, or a plain string.
   */
  datatype Owner =
    | OwnerFields(email: Option<string>, name: Option<string>, id: Option<string>)
    | OwnerText(text: string)

  /**
   * The `metadata` object of a stored file. `mimeType` and `size` are the
   * keys upload.ts writes, `fileType` (the key `type`) and `uploadedAt` the
   * keys route.ts writes; `uploadedBy` is the owner key the listing queries.
   */
  datatype Metadata = Metadata(
    mimeType: Option<string>,
    fileType: Option<string>,
    size: Option<nat>,
    uploadedAt: Option<int>,
    uploadedBy: Option<Owner>)

  /** The metadata an upload route writes: no owner. */
  function UnownedMetadata(mimeType: Option<string>, fileType: Option<string>, size: Option<nat>, uploadedAt: Option<int>): Metadata {
    Metadata(mimeType, fileType, size, uploadedAt, None)
  }

  /**
   * A document of `uploads.files` together with its bytes. `contentType`
   * and the top-level `uploadedBy` are keys older writers may have set; the
   * routes modelled here never set them.
   */
  datatype StoredFile = StoredFile(
    id: ObjectId,
    filename: string,
    length: nat,
    contentType: Option<string>,
    metadata: Option<Metadata>,
    uploadedBy: Option<Owner>,
    data: seq<byte>)

  /** No `uploadedBy` key anywhere in the record. */
  predicate Unowned(f: StoredFile) {
    f.uploadedBy.None? && (f.metadata.None? || f.metadata.value.uploadedBy.None?)
  }

  /** The bytes of a stream that delivered `chunks`, in order. */
  function Flatten(chunks: seq<seq<byte>>): seq<byte> {
    if chunks == [] then [] else Flatten(chunks[..|chunks| - 1]) + chunks[|chunks| - 1]
  }

  /** Reading in two stretches delivers the bytes of both, in order. */
  lemma {:induction false} FlattenAppend(a: seq<seq<byte>>, b: seq<seq<byte>>)
    ensures Flatten(a + b) == Flatten(a) + Flatten(b)
    decreases |b|
  {
    if b == [] {
      assert a + b == a;
    } else {
      assert (a + b)[..|a + b| - 1] == a + b[..|b| - 1];
      FlattenAppend(a, b[..|b| - 1]);
    }
  }

  /**
   * A `File` taken from multipart form data: its `name`, its `type` and the
   * chunks its `stream()` delivers.
   */
  datatype FormFile = FormFile(name: string, fileType: string, chunks: seq<seq<byte>>) {
    /** The file's bytes (`arrayBuffer()`). */
    function Content(): seq<byte> { Flatten(chunks) }

    /** `file.size`. */
    function Size(): nat { |Content()| }
  }

  // ---------------------------------------------------------------------
  // Queries by id

  /** `bucket.find({ _id: id })`: the records with that id, in stored order. */
  function WithId(files: seq<StoredFile>, id: ObjectId): (r: seq<StoredFile>)
    ensures |r| <= |files|
    ensures forall f :: f in r <==> f in files && f.id == id
    decreases |files|
  {
    if files == [] then []
    else if files[0].id == id then [files[0]] + WithId(files[1..], id)
    else WithId(files[1..], id)
  }

  /** The records whose id is not `id`, in stored order. */
  function WithoutId(files: seq<StoredFile>, id: ObjectId): (r: seq<StoredFile>)
    ensures |r| <= |files|
    ensures forall f :: f in r <==> f in files && f.id != id
    decreases |files|
  {
    if files == [] then []
    else if files[0].id == id then WithoutId(files[1..], id)
    else [files[0]] + WithoutId(files[1..], id)
  }

  /** No two records share an id. */
  ghost predicate DistinctIds(files: seq<StoredFile>) {
    forall i, j :: 0 <= i < j < |files| ==> files[i].id != files[j].id
  }

  /** With distinct ids, removing a present id drops exactly one record and keeps the rest in order. */
  lemma {:induction false} WithoutPresentId(files: seq<StoredFile>, k: nat)
    requires k < |files| && DistinctIds(files)
    ensures WithoutId(files, files[k].id) == files[..k] + files[k + 1..]
    decreases |files|
  {
    var id := files[k].id;
    if k == 0 {
      WithoutAbsentId(files[1..], id);
    } else {
      WithoutPresentId(files[1..], k - 1);
      assert files[1..][k - 1].id == id;
      assert [files[0]] + (files[1..][..k - 1] + files[1..][k..]) == files[..k] + files[k + 1..];
    }
  }

  /** Removing an id no record carries changes nothing. */
  lemma {:induction false} WithoutAbsentId(files: seq<StoredFile>, id: ObjectId)
    requires forall i :: 0 <= i < |files| ==> files[i].id != id
    ensures WithoutId(files, id) == files
    decreases |files|
  {
    if files != [] {
      WithoutAbsentId(files[1..], id);
    }
  }

  /** `find({ _id: id })` is empty exactly when no record carries `id`. */
  lemma {:induction false} WithIdAbsent(files: seq<StoredFile>, id: ObjectId)
    requires forall f :: f in files ==> f.id != id
    ensures WithId(files, id) == []
    decreases |files|
  {
    if files != [] {
      assert files[0] in files;
      WithIdAbsent(files[1..], id);
    }
  }

  // ---------------------------------------------------------------------
  // Downloads by name

  /**
   * The newest record named `name`: GridFS's default revision is the most
   * recent upload, which is the last one in insertion order.
   */
  function Newest(files: seq<StoredFile>, name: string): (r: Option<StoredFile>)
    ensures r.None? <==> forall f :: f in files ==> f.filename != name
    ensures r.Some? ==>
      exists k :: 0 <= k < |files| && files[k] == r.value && r.value.filename == name &&
        forall j :: k < j < |files| ==> files[j].filename != name
    decreases |files|
  {
    if files == [] then None
    else if files[|files| - 1].filename == name then Some(files[|files| - 1])
    else Newest(files[..|files| - 1], name)
  }

  /**
   * The stream `openDownloadStreamByName(name)` returns. It is created
   * whether or not a file has that name; `content` is the newest such
   * file's bytes, or `None` when the stream fails on its first read
   * ("FileNotFound").
   */
  datatype DownloadStream = DownloadStream(filename: string, content: Option<seq<byte>>)

  /** `bucket.openDownloadStreamByName(name)`: always a stream object, never null. */
  function OpenDownloadStreamByName(files: seq<StoredFile>, name: string): Option<DownloadStream> {
    Some(DownloadStream(name, match Newest(files, name) case None => None case Some(f) => Some(f.data)))
  }

  // ---------------------------------------------------------------------
  // The bucket

  /** The GridFS bucket `uploads` and the id source of the driver. */
  class Bucket {
    var files: seq<StoredFile>
    /** Every id handed out so far is below `nextId`, so a new id is never reused. */
    var nextId: ObjectId

    ghost predicate Valid()
      reads this
    {
      DistinctIds(files) &&
      forall i :: 0 <= i < |files| ==> files[i].id < nextId && files[i].length == |files[i].data|
    }

    constructor (initial: seq<StoredFile>, next: ObjectId)
      requires DistinctIds(initial)
      requires forall i :: 0 <= i < |initial| ==> initial[i].id < next && initial[i].length == |initial[i].data|
      ensures Valid() && files == initial && nextId == next
    {
      files := initial;
      nextId := next;
    }

    /**
     * `openUploadStream(name, { metadata })` followed by a completed write of
     * `data`: one new record with a fresh id, appended after the others.
     */
    method Put(name: string, data: seq<byte>, metadata: Metadata) returns (id: ObjectId)
      requires Valid()
      modifies this
      ensures Valid()
      ensures id == old(nextId) && nextId == id + 1
      ensures forall i :: 0 <= i < |old(files)| ==> old(files)[i].id != id
      ensures files == old(files) + [StoredFile(id, name, |data|, None, Some(metadata), None, data)]
    {
      id := nextId;
      files := files + [StoredFile(id, name, |data|, None, Some(metadata), None, data)];
      nextId := nextId + 1;
    }

    /** `bucket.delete(id)`: removes the record with that id; `found` is false when there is none. */
    method Delete(id: ObjectId) returns (found: bool)
      requires Valid()
      modifies this
      ensures Valid() && nextId == old(nextId)
      ensures found <==> WithId(old(files), id) != []
      ensures files == WithoutId(old(files), id)
    {
      found := WithId(files, id) != [];
      files := WithoutId(files, id);
      DistinctWithout(old(files), id);
    }
  }

  /** Removing one id keeps the remaining records' ids distinct. */
  lemma {:induction false} DistinctWithout(files: seq<StoredFile>, id: ObjectId)
    requires DistinctIds(files)
    ensures DistinctIds(WithoutId(files, id))
    decreases |files|
  {
    if files != [] {
      var tail := files[1..];
      assert DistinctIds(tail);
      DistinctWithout(tail, id);
      if files[0].id != id {
        var rest := WithoutId(tail, id);
        var r := [files[0]] + rest;
        forall i, j | 0 <= i < j < |r| ensures r[i].id != r[j].id {
          if i == 0 {
            assert r[j] == rest[j - 1] && rest[j - 1] in tail;
            var k :| 0 <= k < |tail| && tail[k] == r[j];
            assert files[k + 1] == r[j];
          } else {
            assert r[i] == rest[i - 1] && r[j] == rest[j - 1];
          }
        }
      }
    }
  }
}
