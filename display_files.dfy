/**
 * GET /api/files/displayFiles: the caller's files. Without a session user the
 * answer is 401 and the store is not queried. Otherwise seven owner queries
 * are tried in a fixed order and the first one that finds anything decides
 * the whole result; results are never merged.
 */
module DisplayFiles {
  import opened Wrappers
  import opened Store
  import opened Auth
  import opened Http

  // ---------------------------------------------------------------------
  // The owner queries

  /** The seven queries, named after the key they compare with a session field. */
  datatype Query =
    | MetadataOwnerEmail  // { 'metadata.uploadedBy.email': user.email }
    | MetadataOwnerName   // { 'metadata.uploadedBy.name': user.name }
    | MetadataOwnerId     // { 'metadata.uploadedBy.id': user.id }
    | OwnerEmail          // { 'uploadedBy.email': user.email }
    | OwnerName           // { 'uploadedBy.name': user.name }
    | OwnerIsEmail        // { uploadedBy: user.email }
    | OwnerIsName         // { uploadedBy: user.name }

  /** The order in which the route tries them. */
  const Queries: seq<Query> :=
    [MetadataOwnerEmail, MetadataOwnerName, MetadataOwnerId, OwnerEmail, OwnerName, OwnerIsEmail, OwnerIsName]

  /** The session field a query compares with. */
  function QueryValue(q: Query, user: SessionUser): Option<string> {
    match q
    case MetadataOwnerEmail => user.email
    case OwnerEmail => user.email
    case OwnerIsEmail => user.email
    case MetadataOwnerName => user.name
    case OwnerName => user.name
    case OwnerIsName => user.name
    case MetadataOwnerId => user.id
  }

  /** The keys inside an owner object. */
  datatype OwnerKey = EmailKey | NameKey | IdKey

  /**
   * What a query finds under the key it reads: nothing (the key is absent,
   * or a dotted path runs through a missing or non-object value), a string,
   * or some other value (an owner object where a string is compared).
   */
  datatype StoredKey = Missing | Str(s: string) | Other

  /** `owner.<key>`; a missing owner or a plain-string owner has no keys. */
  function OwnerValue(owner: Option<Owner>, key: OwnerKey): StoredKey {
    match owner
    case Some(OwnerFields(email, name, id)) =>
      (match key
       case EmailKey => KeyOf(email)
       case NameKey => KeyOf(name)
       case IdKey => KeyOf(id))
    case _ => Missing
  }

  function KeyOf(v: Option<string>): StoredKey {
    if v.Some? then Str(v.value) else Missing
  }

  /** The top-level `uploadedBy` itself: a string, an object, or absent. */
  function WholeOwner(owner: Option<Owner>): StoredKey {
    match owner
    case None => Missing
    case Some(OwnerText(text)) => Str(text)
    case Some(OwnerFields(_, _, _)) => Other
  }

  /** The stored key a query reads. */
  function StoredValue(q: Query, f: StoredFile): StoredKey {
    var inMetadata := if f.metadata.Some? then f.metadata.value.uploadedBy else None;
    match q
    case MetadataOwnerEmail => OwnerValue(inMetadata, EmailKey)
    case MetadataOwnerName => OwnerValue(inMetadata, NameKey)
    case MetadataOwnerId => OwnerValue(inMetadata, IdKey)
    case OwnerEmail => OwnerValue(f.uploadedBy, EmailKey)
    case OwnerName => OwnerValue(f.uploadedBy, NameKey)
    case OwnerIsEmail => WholeOwner(f.uploadedBy)
    case OwnerIsName => WholeOwner(f.uploadedBy)
  }

  /**
   * A record matches a query when the stored key holds the session field's
   * value. A missing session field is sent as `null`, and `{ key: null }`
   * matches exactly the records where the key is absent, never one where it
   * holds a string or an object.
   */
  predicate Matches(q: Query, user: SessionUser, f: StoredFile) {
    match QueryValue(q, user)
    case None => StoredValue(q, f) == Missing
    case Some(v) => StoredValue(q, f) == Str(v)
  }

  /**
   * `{ uploadedBy: <session field> }` compares the whole top-level owner: with
   * the field missing it matches only a record without `uploadedBy`, and with
   * a value it matches only a string owner equal to it, never an owner object.
   */
  lemma WholeOwnerMatches(q: Query, user: SessionUser, f: StoredFile)
    requires q == OwnerIsEmail || q == OwnerIsName
    ensures Matches(q, user, f) <==>
      (QueryValue(q, user).None? && f.uploadedBy.None?) ||
      (QueryValue(q, user).Some? && f.uploadedBy == Some(OwnerText(QueryValue(q, user).value)))
    ensures f.uploadedBy.Some? && f.uploadedBy.value.OwnerFields? ==> !Matches(q, user, f)
  {
  }

  /** The session user has an email, a name and an id. */
  predicate KnownUser(user: SessionUser) {
    user.email.Some? && user.name.Some? && user.id.Some?
  }

  /** Every query of `qs` compares with a session field that is present. */
  predicate AllPresent(qs: seq<Query>, user: SessionUser) {
    forall i :: 0 <= i < |qs| ==> QueryValue(qs[i], user).Some?
  }

  /** `uploadsCollection.find(query).toArray()`: the matching records in stored order. */
  function Find(files: seq<StoredFile>, q: Query, user: SessionUser): (r: seq<StoredFile>)
    ensures |r| <= |files|
    ensures forall f :: f in r <==> f in files && Matches(q, user, f)
    decreases |files|
  {
    if files == [] then []
    else if Matches(q, user, files[0]) then [files[0]] + Find(files[1..], q, user)
    else Find(files[1..], q, user)
  }

  /**
   * A record without any owner key matches a query exactly when the session
   * field the query compares with is missing.
   */
  lemma UnownedNeverMatches(q: Query, user: SessionUser, f: StoredFile)
    requires Unowned(f)
    ensures Matches(q, user, f) <==> QueryValue(q, user).None?
  {
  }

  /**
   * Records without an owner key added to the store change the result of no
   * query whose session field is present.
   */
  lemma {:induction false} FindIgnoresUnowned(files: seq<StoredFile>, added: seq<StoredFile>, q: Query, user: SessionUser)
    requires QueryValue(q, user).Some?
    requires forall i :: 0 <= i < |added| ==> Unowned(added[i])
    ensures Find(files + added, q, user) == Find(files, q, user)
    decreases |files|
  {
    if files == [] {
      assert files + added == added;
      FindUnownedEmpty(added, q, user);
    } else {
      assert (files + added)[1..] == files[1..] + added;
      FindIgnoresUnowned(files[1..], added, q, user);
    }
  }

  lemma {:induction false} FindUnownedEmpty(added: seq<StoredFile>, q: Query, user: SessionUser)
    requires QueryValue(q, user).Some?
    requires forall i :: 0 <= i < |added| ==> Unowned(added[i])
    ensures Find(added, q, user) == []
    decreases |added|
  {
    if added != [] {
      UnownedNeverMatches(q, user, added[0]);
      FindUnownedEmpty(added[1..], q, user);
    }
  }

  // ---------------------------------------------------------------------
  // First non-empty result wins

  /** The result of the first query in `qs` that finds anything; empty when none does. */
  function FirstNonEmpty(files: seq<StoredFile>, user: SessionUser, qs: seq<Query>): seq<StoredFile>
    decreases |qs|
  {
    if qs == [] then []
    else if Find(files, qs[0], user) != [] then Find(files, qs[0], user)
    else FirstNonEmpty(files, user, qs[1..])
  }

  /**
   * Either every query finds nothing and the result is empty, or the result is
   * exactly the records of the query at some index `k` that found something,
   * after queries that all found nothing.
   */
  lemma {:induction false} FirstNonEmptyIndex(files: seq<StoredFile>, user: SessionUser, qs: seq<Query>) returns (k: nat)
    ensures k <= |qs|
    ensures forall j :: 0 <= j < k ==> Find(files, qs[j], user) == []
    ensures k == |qs| ==> FirstNonEmpty(files, user, qs) == []
    ensures k < |qs| ==> Find(files, qs[k], user) != [] && FirstNonEmpty(files, user, qs) == Find(files, qs[k], user)
    decreases |qs|
  {
    if qs == [] {
      k := 0;
    } else if Find(files, qs[0], user) != [] {
      k := 0;
    } else {
      var k' := FirstNonEmptyIndex(files, user, qs[1..]);
      k := k' + 1;
      forall j | 0 <= j < k ensures Find(files, qs[j], user) == [] {
        if j > 0 { assert qs[j] == qs[1..][j - 1]; }
      }
    }
  }

  /**
   * No merging: once a query at index `j` finds something, a record that no
   * query up to `j` matches is absent, whatever later queries match.
   */
  lemma NoMerging(files: seq<StoredFile>, user: SessionUser, qs: seq<Query>, j: nat, f: StoredFile)
    requires j < |qs| && Find(files, qs[j], user) != []
    requires forall i :: 0 <= i <= j ==> !Matches(qs[i], user, f)
    ensures f !in FirstNonEmpty(files, user, qs)
  {
    var k := FirstNonEmptyIndex(files, user, qs);
  }

  /**
   * Unowned records never change what a user is shown when every query
   * compares with a session field that is present.
   */
  lemma {:induction false} FirstNonEmptyIgnoresUnowned(files: seq<StoredFile>, added: seq<StoredFile>, user: SessionUser, qs: seq<Query>)
    requires AllPresent(qs, user)
    requires forall i :: 0 <= i < |added| ==> Unowned(added[i])
    ensures FirstNonEmpty(files + added, user, qs) == FirstNonEmpty(files, user, qs)
    decreases |qs|
  {
    if qs != [] {
      FindIgnoresUnowned(files, added, qs[0], user);
      assert AllPresent(qs[1..], user) by {
        forall i | 0 <= i < |qs[1..]| ensures QueryValue(qs[1..][i], user).Some? {
          assert qs[1..][i] == qs[i + 1];
        }
      }
      FirstNonEmptyIgnoresUnowned(files, added, user, qs[1..]);
    }
  }

  /** A user with an email, a name and an id has a value for every query. */
  lemma KnownUserAllPresent(user: SessionUser)
    requires KnownUser(user)
    ensures AllPresent(Queries, user)
  {
    forall i | 0 <= i < |Queries| ensures QueryValue(Queries[i], user).Some? {
      assert Queries[i] in Queries;
    }
  }

  /**
   * The route as written, for a session user without an email: the first
   * query is `{ 'metadata.uploadedBy.email': null }`, which every unowned
   * record matches, so every unowned record is listed.
   */
  lemma MissingEmailListsUnowned(files: seq<StoredFile>, user: SessionUser, f: StoredFile)
    requires user.email.None? && f in files && Unowned(f)
    ensures f in FirstNonEmpty(files, user, Queries)
  {
    assert Queries[0] == MetadataOwnerEmail;
    assert Matches(Queries[0], user, f);
    assert f in Find(files, Queries[0], user);
  }

  /**
   * Another user's file stays hidden, also from a session user whose email
   * or name is missing: when both owner objects of the record carry an
   * email, a name and an id that differ from the user's, no query matches
   * the record, so it is not listed.
   */
  lemma OthersFilesHidden(files: seq<StoredFile>, user: SessionUser, f: StoredFile, o: Owner)
    requires o.OwnerFields? && o.email.Some? && o.name.Some? && o.id.Some?
    requires f.uploadedBy == Some(o) && f.metadata.Some? && f.metadata.value.uploadedBy == Some(o)
    requires o.email != user.email && o.name != user.name && o.id != user.id
    ensures f !in FirstNonEmpty(files, user, Queries)
  {
    var k := FirstNonEmptyIndex(files, user, Queries);
    if k < |Queries| {
      var q := Queries[k];
      match q
      case OwnerIsEmail => WholeOwnerMatches(q, user, f);
      case OwnerIsName => WholeOwnerMatches(q, user, f);
      case _ => assert !Matches(q, user, f);
    }
  }

  /** The queries of `qs` whose session field is present, in order. */
  function PresentQueries(qs: seq<Query>, user: SessionUser): (r: seq<Query>)
    ensures AllPresent(r, user)
    ensures forall q :: q in r <==> q in qs && QueryValue(q, user).Some?
    decreases |qs|
  {
    if qs == [] then []
    else if QueryValue(qs[0], user).Some? then [qs[0]] + PresentQueries(qs[1..], user)
    else PresentQueries(qs[1..], user)
  }

  /** `qs` with every query present is its own present part. */
  lemma {:induction false} PresentQueriesAll(qs: seq<Query>, user: SessionUser)
    requires AllPresent(qs, user)
    ensures PresentQueries(qs, user) == qs
    decreases |qs|
  {
    if qs != [] {
      assert QueryValue(qs[0], user).Some?;
      assert AllPresent(qs[1..], user) by {
        forall i | 0 <= i < |qs[1..]| ensures QueryValue(qs[1..][i], user).Some? {
          assert qs[1..][i] == qs[i + 1];
        }
      }
      PresentQueriesAll(qs[1..], user);
    }
  }

  /**
   * The selection as evidently intended: the route's first-non-empty rule,
   * over the queries whose session field is present only.
   */
  function SelectOwned(files: seq<StoredFile>, user: SessionUser): seq<StoredFile> {
    FirstNonEmpty(files, user, PresentQueries(Queries, user))
  }

  /**
   * The intended selection lists only records that carry an owner key,
   * never changes when unowned records are added, whoever the user is, and
   * agrees with the route as written for a user with an email, a name and
   * an id.
   */
  lemma SelectOwnedOutcomes(files: seq<StoredFile>, added: seq<StoredFile>, user: SessionUser)
    requires forall i :: 0 <= i < |added| ==> Unowned(added[i])
    ensures forall f :: f in SelectOwned(files, user) ==> f in files && !Unowned(f)
    ensures SelectOwned(files + added, user) == SelectOwned(files, user)
    ensures KnownUser(user) ==> SelectOwned(files, user) == FirstNonEmpty(files, user, Queries)
  {
    var qs := PresentQueries(Queries, user);
    FirstNonEmptyIgnoresUnowned(files, added, user, qs);
    var k := FirstNonEmptyIndex(files, user, qs);
    if k < |qs| {
      forall f | f in SelectOwned(files, user) ensures f in files && !Unowned(f) {
        assert f in Find(files, qs[k], user);
        if Unowned(f) {
          UnownedNeverMatches(qs[k], user, f);
        }
      }
    }
    if KnownUser(user) {
      KnownUserAllPresent(user);
      PresentQueriesAll(Queries, user);
    }
  }

  /**
   * The query loop of the route: tries `Queries` in order and stops at the
   * first non-empty result. `tried` counts the queries sent to the store.
   */
  method SelectFiles(files: seq<StoredFile>, user: SessionUser) returns (selected: seq<StoredFile>, ghost tried: nat)
    ensures selected == FirstNonEmpty(files, user, Queries)
    ensures 1 <= tried <= |Queries|
    ensures forall j :: 0 <= j < tried - 1 ==> Find(files, Queries[j], user) == []
    ensures selected == Find(files, Queries[tried - 1], user)
    ensures tried < |Queries| ==> selected != []
  {
    selected := [];
    tried := 0;
    var i := 0;
    while i < |Queries|
      invariant 0 <= i <= |Queries| && tried == i
      invariant selected == []
      invariant forall j :: 0 <= j < i ==> Find(files, Queries[j], user) == []
      invariant FirstNonEmpty(files, user, Queries) == FirstNonEmpty(files, user, Queries[i..])
    {
      var found := Find(files, Queries[i], user);
      tried := tried + 1;
      if |found| > 0 {
        selected := found;
        break;
      }
      assert Queries[i..][1..] == Queries[i + 1..];
      i := i + 1;
    }
    if i == |Queries| {
      assert Queries[i..] == [];
    }
  }

  // ---------------------------------------------------------------------
  // The response

  /** One entry of the `files` array of the response. */
  datatype FileView = FileView(id: string, filename: string, length: nat, mimetype: string, uploadedBy: Option<Owner>)

  /** `file.metadata?.mimeType || file.contentType || 'Unknown'`, with JavaScript's falsy empty string. */
  function MimeTypeOf(f: StoredFile): string {
    var fromMetadata := if f.metadata.Some? then f.metadata.value.mimeType else None;
    if Truthy(fromMetadata) then fromMetadata.value
    else if Truthy(f.contentType) then f.contentType.value
    else "Unknown"
  }

  /**
   * The displayed type is never empty: a non-empty `metadata.mimeType` wins,
   * then a non-empty `contentType`, else `Unknown`.
   */
  lemma MimeTypeFallback(f: StoredFile)
    ensures MimeTypeOf(f) != ""
    ensures f.metadata.Some? && Truthy(f.metadata.value.mimeType) ==> MimeTypeOf(f) == f.metadata.value.mimeType.value
    ensures (f.metadata.None? || !Truthy(f.metadata.value.mimeType)) && Truthy(f.contentType) ==>
      MimeTypeOf(f) == f.contentType.value
    ensures (f.metadata.None? || !Truthy(f.metadata.value.mimeType)) && !Truthy(f.contentType) ==>
      MimeTypeOf(f) == "Unknown"
  {
  }

  function ToView(f: StoredFile): FileView {
    FileView(ObjectIdToString(f.id), f.filename, f.length, MimeTypeOf(f),
             if f.metadata.Some? then f.metadata.value.uploadedBy else None)
  }

  /** `files.map(...)` of the route. */
  function ToViews(fs: seq<StoredFile>): seq<FileView> {
    seq(|fs|, i requires 0 <= i < |fs| => ToView(fs[i]))
  }

  /**
   * The views keep length and order, and each `_id` string is one that
   * DeleteFiles accepts and resolves back to the same record id.
   */
  lemma ViewsMatchRecords(fs: seq<StoredFile>, i: nat)
    requires i < |fs| && fs[i].id < Text.Pow(16, ObjectIdDigits)
    ensures |ToViews(fs)| == |fs|
    ensures ToViews(fs)[i].filename == fs[i].filename && ToViews(fs)[i].length == fs[i].length
    ensures ParseObjectId(ToViews(fs)[i].id) == Some(fs[i].id)
  {
    ObjectIdRoundTrip(fs[i].id);
  }

  /** The `userInfo` object of a successful answer. */
  datatype UserInfo = UserInfo(email: Option<string>, name: Option<string>, id: Option<string>)

  /** The JSON answer of the route; `details` is the error message of a 500. */
  datatype ListReply = ListReply(status: int, success: bool, files: seq<FileView>, message: string, details: Option<string>, userInfo: Option<UserInfo>)

  const LoginRequired := "Login to view your files in the MyFiles section"
  const FetchFailed := "Failed to fetch files"

  /**
   * The route. `session` is what `getServerSession` returns; `connection` is
   * the outcome of awaiting the shared client; `files` is `uploads.files`.
   * `queries` counts the queries sent to the store.
   */
  method ListFiles(session: Option<SessionData>, connection: Connection, files: seq<StoredFile>)
    returns (reply: ListReply, ghost queries: nat)
    ensures session.None? || session.value.user.None? ==>
      reply == ListReply(401, false, [], LoginRequired, None, None) && queries == 0
    ensures session.Some? && session.value.user.Some? && connection.Refused? ==>
      reply == ListReply(500, false, [], FetchFailed, Some(connection.message), None) && queries == 0
    ensures session.Some? && session.value.user.Some? && connection.Connected? ==>
      var user := session.value.user.value;
      reply.status == 200 && reply.success &&
      reply.files == ToViews(FirstNonEmpty(files, user, Queries)) && reply.details.None? &&
      reply.userInfo == Some(UserInfo(user.email, user.name, user.id)) &&
      1 <= queries <= |Queries|
  {
    if session.None? || session.value.user.None? {
      return ListReply(401, false, [], LoginRequired, None, None), 0;
    }
    if connection.Refused? {
      return ListReply(500, false, [], FetchFailed, Some(connection.message), None), 0;
    }
    var user := session.value.user.value;
    var selected;
    selected, queries := SelectFiles(files, user);
    reply := ListReply(200, true, ToViews(selected), "", None, Some(UserInfo(user.email, user.name, user.id)));
  }

  /**
   * When every query finds nothing the selection is empty (the route then
   * answers 200 with `success: true` and no files, unlike the 401 answer).
   */
  lemma NothingFoundIsEmpty(files: seq<StoredFile>, user: SessionUser)
    requires forall j :: 0 <= j < |Queries| ==> Find(files, Queries[j], user) == []
    ensures FirstNonEmpty(files, user, Queries) == []
  {
    var k := FirstNonEmptyIndex(files, user, Queries);
  }
}
