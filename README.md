# storage.sense core, modelled in Dafny

storage.sense is a Next.js file-storage application. Users sign in with
GitHub through next-auth. They upload files into a MongoDB GridFS bucket
named `uploads`, list the files recorded as theirs, download and delete
them, and use a few client-side tools: a drag-and-drop file manager, a file
list, a "My Files" gallery, an upload progress button and a timer/stopwatch.

This project models the server routes and the logic of those client
components:

- The GridFS bucket (`Store.Bucket`) is a sequence of stored file records
  plus the next object id. Uploads append to it and deletions filter it.
- Each route handler becomes a function or a method. It takes the request
  fields, the database connection's outcome (`Http.Connection`), and, where
  a stream can fail, the index and message of the failure (`Http.Fault`).
  It returns the HTTP reply (`Http.Reply`): the status, the JSON or text
  body, and for downloads the headers and the stream.
- The React components become classes whose fields are the components'
  state. Their handlers are methods, and the pure helpers are functions
  with lemmas about them.

The modules are:

- `Text`: JavaScript's string helpers as the routes use them.
  `split(".").pop()`, ASCII `toLowerCase`, `Number` on digit strings,
  `padStart(2, "0")` and hexadecimal digits.
- `Http`: replies, and `Content-Disposition`. The header is checked
  against the quoted-string grammar of section 4.1 of RFC 6266 and
  section 3.2.6 of RFC 7230.
- `Store`: ObjectIds as 24 hexadecimal digits, stored records and the bucket.
- `Auth`: the next-auth `session` and `redirect` callbacks.
- Server routes:
  - `DisplayFiles`: GET /api/files/displayFiles.
  - `FilesRoute`: POST and GET /api/files.
  - `UploadRoute`: upload.ts.
  - `DeleteFiles`: DELETE /api/files/DeleteFiles.
  - `ServeDownloads`: GET /api/files/ServeDownloads.
  - `Download`: download.ts.
  - `Users`: the login and register handlers.
- Client components: `FileManager`, `FileList`, `MyFiles`,
  `TimerStopwatch` and `ButtonProgress`.

## Model

| member | source | states |
|---|---|---|
| DisplayFiles.Find | app/api/files/displayFiles/route.ts:45 | a query's result holds exactly the stored files, in order, whose queried key holds the session user's string; a missing session value, sent as `null`, matches exactly the files where the key is absent, never one where it holds a string or an owner object |
| DisplayFiles.WholeOwnerMatches | app/api/files/displayFiles/route.ts:38-39 | `{ uploadedBy: <email or name> }` matches a record without `uploadedBy` exactly when the session field is missing, a string owner exactly when it equals the session field, and an owner object never |
| DisplayFiles.OthersFilesHidden | app/api/files/displayFiles/route.ts:31-51 | a record whose owner objects carry an email, a name and an id, none equal to the session user's, is never listed, also for a user whose email or name is missing |
| DisplayFiles.UnownedNeverMatches | app/api/files/displayFiles/route.ts:31-40 | a file with no owner recorded under `metadata.uploadedBy` or `uploadedBy` matches a query exactly when the session field the query compares with is missing |
| DisplayFiles.FirstNonEmptyIndex | app/api/files/displayFiles/route.ts:43-51 | the listing is the result of the first query that finds anything, every earlier query found nothing, and it is empty when all of them find nothing |
| DisplayFiles.NoMerging | app/api/files/displayFiles/route.ts:43-51 | results are never merged: a file that none of the queries up to the first successful one match is not listed, even if a later query would match it |
| DisplayFiles.FirstNonEmptyIgnoresUnowned | app/api/files/displayFiles/route.ts:31-51 | adding files with no owner never changes the listing when every query's session field is present |
| DisplayFiles.KnownUserAllPresent | app/api/files/displayFiles/route.ts:31-40 | a session user with an email, a name and an id gives every one of the seven queries a value |
| DisplayFiles.MissingEmailListsUnowned | app/api/files/displayFiles/route.ts:31-51 | as written, a session user without an email is shown every stored file that has no owner, because the first query compares a missing key with `null` |
| DisplayFiles.SelectOwnedOutcomes | app/api/files/displayFiles/route.ts:31-51 | with the queries on missing session fields skipped, only files that carry an owner are listed, files without an owner never change the listing whoever the user is, and the result equals the route's for a user with an email, a name and an id |
| DisplayFiles.SelectFiles | app/api/files/displayFiles/route.ts:43-51 | the loop returns the first non-empty query result, having stopped at the first query that found anything |
| DisplayFiles.MimeTypeFallback | app/api/files/displayFiles/route.ts:58 | the type shown is the metadata MIME type if truthy, else the content type if truthy, else `Unknown`, and never empty |
| DisplayFiles.ViewsMatchRecords | app/api/files/displayFiles/route.ts:54-60 | one view per record, in order, with its name and length, and with an id string that parses back to the record's ObjectId |
| DisplayFiles.ListFiles | app/api/files/displayFiles/route.ts:8-83 | 401 with no files when there is no session or user, 500 with the connection error's message as `details` when the database connection fails, otherwise success with the selected files' views and the user's info |
| DisplayFiles.NothingFoundIsEmpty | app/api/files/displayFiles/route.ts:43-51 | when every query finds nothing the listing is empty |
| FilesRoute.MetadataFor | app/api/files/route.ts:22-27 | one metadata document per uploaded file, in order, with its name, size, type and the upload time |
| FilesRoute.MetadataCollection.InsertMany | app/api/files/route.ts:36 | the `file_metadata` collection gains the batch at its end |
| FilesRoute.RecordsFaithful | app/api/files/route.ts:39-48 | the i-th GridFS record has the fresh id `firstId + i`, distinct from the others, the i-th file's name and bytes, no owner and no content type, and metadata holding only the type and upload time |
| FilesRoute.Post | app/api/files/route.ts:7-63 | an empty form gives 400 and changes nothing; a failed connection gives 500 and changes nothing; otherwise all metadata is inserted first, the files up to a failing one are stored, and the reply is 500 with the error or 200 with success |
| FilesRoute.GetAfterPost | app/api/files/route.ts:67-85 | after a successful POST, GET answers 200 with the earlier documents followed by one per uploaded file, in order, with its name and size |
| FilesRoute.UploadsNeverListed | app/api/files/route.ts:41-43 | files stored by this route carry no owner, so they never appear in the displayFiles listing of a user with an email, a name and an id |
| FilesRoute.UploadsListedWithoutEmail | app/api/files/route.ts:41-43 | every file stored by this route appears in the displayFiles listing of a user whose session has no email |
| UploadRoute.ChunkReader.Read | app/api/files/upload.ts:7 | a read returns the next chunk and advances, or reports done at the end without advancing |
| UploadRoute.StreamAdapter.ReadOnce | app/api/files/upload.ts:6-19 | each `read` pushes the next chunk or ends the stream; the bytes pushed so far are always the chunks read so far, concatenated |
| UploadRoute.Drain | app/api/files/upload.ts:6-19 | piping the adapted stream to its end yields exactly the concatenation of all chunks |
| UploadRoute.Records | app/api/files/upload.ts:38-41 | the i-th record has the i-th file's name and full content, no owner, and metadata holding its MIME type and size |
| UploadRoute.Written | app/api/files/upload.ts:37-50 | the files stored before a stream error: all of them exactly when no file fails |
| UploadRoute.Post | app/api/files/upload.ts:21-59 | a failed connection gives 500; no files gives 400; otherwise files are stored one by one in order, a failing stream gives 500 and keeps the earlier files, and success gives 200 |
| Store.ObjectIdRoundTrip | app/api/files/DeleteFiles/route.ts:19 | an ObjectId printed as 24 lower-case hex digits parses back to itself |
| Store.ParsedObjectIdPrints | app/api/files/DeleteFiles/route.ts:19 | an accepted id string prints back as its lower-cased self |
| Store.Bucket.Put | app/api/files/upload.ts:42-49 | storing appends one record with a fresh id not used before, the given name, bytes and metadata |
| Store.Bucket.Delete | app/api/files/DeleteFiles/route.ts:28 | deleting removes exactly the records with that id, and reports whether any existed |
| Store.DistinctWithout | app/api/files/DeleteFiles/route.ts:28 | deletion keeps record ids distinct |
| Store.Newest | app/api/files/download.ts:19 | the record `openDownloadStreamByName` serves: none exactly when no record has the name, otherwise a record of that name with no later one of the same name |
| DeleteFiles.Delete | app/api/files/DeleteFiles/route.ts:4-41 | the reply and the bucket's new contents are those of the route's decision on the request and the old contents |
| DeleteFiles.DeleteGuards | app/api/files/DeleteFiles/route.ts:4-41 | 400 exactly for a missing or empty id; 500 with BSON's message for a malformed id or with the connection's error; 404 exactly when no record has the id; any non-200 reply leaves the bucket unchanged |
| DeleteFiles.DeleteRemovesExactly | app/api/files/DeleteFiles/route.ts:22-32 | deleting by a stored record's printed id succeeds and removes that record alone, leaving the rest in order |
| DeleteFiles.DeleteTwice | app/api/files/DeleteFiles/route.ts:22-25 | deleting the same id a second time answers 404 and changes nothing |
| DeleteFiles.DeleteKeepsOthers | app/api/files/DeleteFiles/route.ts:28 | a successful deletion keeps every record with a different id |
| Http.QuotedValuePlain | app/api/files/ServeDownloads/route.ts:32 | a quoted string without quote or backslash reads back as its content |
| Http.DispositionRoundTrip | app/api/files/ServeDownloads/route.ts:32 | a name without `"` or `\` is read back from the `attachment; filename="…"` header unchanged, as built here and at app/api/files/download.ts:24 |
| Http.DispositionQuoteTruncates | app/api/files/ServeDownloads/route.ts:32 | a name containing `"` is not escaped, so a reader of the header sees only the part before the quote |
| ServeDownloads.ContentTypeRule | app/api/files/ServeDownloads/route.ts:26-27 | the type is `application/pdf` exactly for names whose text after the last dot is `pdf`, and `application/octet-stream` otherwise |
| ServeDownloads.PdfNameSegment | app/api/files/ServeDownloads/route.ts:26 | a name ending in `.pdf`, or exactly `pdf`, has `pdf` as its last dot segment |
| ServeDownloads.ServeDownloadOutcomes | app/api/files/ServeDownloads/route.ts:4-39 | 400 exactly for a missing or empty name; 500 exactly when the connection fails; otherwise an attachment with the extension's type and the unescaped disposition |
| ServeDownloads.ServeDownloadMissingFile | app/api/files/ServeDownloads/route.ts:21-23 | for a name no record carries, the route still answers 200 with a stream that has nothing to deliver |
| ServeDownloads.ServeDownloadCheckedOutcomes | app/api/files/ServeDownloads/route.ts:21-23 | with the intended not-found test, 404 exactly when no record has the name, and attachments carry the newest record's bytes |
| Download.DownloadOutcomes | app/api/files/download.ts:4-30 | 400 exactly for a missing or empty name; 500 exactly when the connection fails; otherwise always an octet-stream attachment, whose stream fails on its first read exactly when no record has the name |
| Users.UserTable.Register | app/api/auth/register.ts:5-21 | a failed connection gives 500 and stores nothing; otherwise the user is appended and the reply is 200 with the success message |
| Users.FindByEmail | app/api/auth/login.ts:14 | `findOne({ email })`: none exactly when no user has the email, otherwise the first user with it |
| Users.LoginOutcomes | app/api/auth/login.ts:14-25 | 404 exactly when no user has the email, 401 exactly when the first such user's password differs, 200 exactly when it matches |
| Users.FindByEmailAppend | app/api/auth/login.ts:14 | registering more users never changes which user an email finds, unless none was found before |
| Users.RegisterThenLogin | app/api/auth/register.ts:14 | after registering a new email, logging in with its password succeeds |
| Users.DuplicateRegistrationShadowed | app/api/auth/register.ts:14 | a second registration with a known email changes no login outcome for that email |
| Auth.RedirectStaysUnderBase | app/utils/auth.ts:28-32 | every redirect target starts with the base URL |
| Auth.RedirectCases | app/utils/auth.ts:28-32 | a URL is kept exactly when it starts with the base; a relative path is prefixed with the base; anything else becomes the base |
| Auth.RedirectIdempotent | app/utils/auth.ts:28-32 | redirecting a redirect target changes nothing |
| Auth.WithTokenSubject | app/utils/auth.ts:22-27 | the session keeps its expiry and its user's other fields, and the user gets the token's subject as id exactly when both are present |
| Auth.ApplySessionCallback | app/utils/auth.ts:22-27 | the callback's effect on the session equals the functional update |
| Auth.SessionCallback | app/utils/auth.ts:22-27 | the callback returns the same session object, updated in place, with the token subject as user id when both are present |
| Text.JoinSplit | app/MyFiles/page.tsx:50 | `split` loses nothing: joining the parts with the separator gives back the string |
| Text.LastSegmentSpec | app/api/files/ServeDownloads/route.ts:26 | `split(sep).pop()` is the text after the last separator, the whole string when there is none |
| Text.LastSegmentAfter | app/MyFiles/page.tsx:50 | the extension of a name with a dot is exactly the text after its last dot |
| Text.LastSegmentToLower | app/MyFiles/page.tsx:50 | lower-casing commutes with taking the extension |
| Text.NatToStringRoundTrip | app/components/TimerStopwatch.tsx:91 | `toString` of a number is its decimal digits, which `Number` reads back |
| Text.HexFixedRoundTrip | app/api/files/displayFiles/route.ts:55 | an id printed as fixed-width hex reads back as the same number |
| FileManager.NewEntry | app/components/FileManager.tsx:27-35 | a dropped file becomes an entry with its name, size and modification time, uploading at progress 0, typed `application/octet-stream` when it has no type |
| FileManager.SetProgress | app/components/FileManager.tsx:50-56 | the entry with that id gets the new progress; every other entry is unchanged |
| FileManager.MarkSuccess | app/components/FileManager.tsx:61-71 | the entry with that id becomes a success at 100; every other entry is unchanged |
| FileManager.RetryReset | app/components/FileManager.tsx:83-89 | the entry with that id goes back to uploading at 0 with no error; every other entry is unchanged |
| FileManager.RemoveId | app/components/FileManager.tsx:78-80 | the remaining entries are exactly those with a different id |
| FileManager.RemoveAbsentId | app/components/FileManager.tsx:78-80 | removing an id no entry has changes nothing |
| FileManager.RemoveIdAppend | app/components/FileManager.tsx:79 | `filter` keeps the order: removing from a concatenation removes from each part |
| FileManager.StepProgress | app/components/FileManager.tsx:48 | each step's progress lies in 0..100 |
| FileManager.StepProgressMonotone | app/components/FileManager.tsx:46-48 | progress never decreases over the steps and reaches 100 at the last step |
| FileManager.MarkSuccessAfterProgress | app/components/FileManager.tsx:50-71 | the progress updates leave no trace once the entry is marked a success |
| FileManager.DropOutcome | app/components/FileManager.tsx:42-72 | after the first `done` dropped files are processed, the list is the old entries followed by those files as successes and the rest still uploading at 0 |
| FileManager.NameCompareFlip | app/components/FileManager.tsx:130-131 | comparing names the other way round negates the result, so descending order is ascending order reversed |
| FileManager.InOrderTotal | app/components/FileManager.tsx:126-145 | every two entries are comparable under the chosen key and direction |
| FileManager.InOrderTrans | app/components/FileManager.tsx:126-145 | the comparator is transitive for every key and direction |
| FileManager.Insert | app/components/FileManager.tsx:127 | inserting into a sorted list keeps it sorted and adds exactly the one entry |
| FileManager.SortFiles | app/components/FileManager.tsx:126-145 | the shown list is a permutation of the entries, ordered by the key and direction, with a missing date counting as 0 |
| FileManager.SortFilesStable | app/components/FileManager.tsx:126-145 | the sort is stable: entries that tie under the comparator keep their order from the list |
| FileManager.NameCompareZero | app/components/FileManager.tsx:130-131 | two names compare equal exactly when they are the same name |
| FileManager.SortFilesMonotone | app/components/FileManager.tsx:126-145 | in the sorted list, earlier entries never compare after later ones |
| FileManager.FlipTwice | app/components/FileManager.tsx:122-124 | toggling changes the direction, and toggling twice restores it |
| FileManager.FileManagerState.SimulateUpload | app/components/FileManager.tsx:46-71 | after the steps the entry with that id is a success at 100; the overall bar ends at 100 when it is tracked |
| FileManager.FileManagerState.HandleDrop | app/components/FileManager.tsx:26-76 | the dropped files are appended and all marked a success at 100, after which nothing is uploading and the bar is back at 0 |
| FileManager.FileManagerState.HandleRemove | app/components/FileManager.tsx:78-80 | the entry with that id is removed; the rest of the state is unchanged |
| FileManager.FileManagerState.HandleRetry | app/components/FileManager.tsx:82-93 | the entry is reset to uploading, and a retry starts exactly when an entry with that id exists |
| FileManager.FileManagerState.Retry | app/components/FileManager.tsx:82-120 | a retried entry ends as a success at 100, and an unknown id changes nothing |
| FileManager.FileManagerState.ToggleSortDirection | app/components/FileManager.tsx:122-124 | only the direction changes, and it flips |
| FileManager.FileManagerState.Shown | app/components/FileManager.tsx:208 | the rendered list is a permutation of the state's entries, sorted by the chosen key and direction |
| FileManager.RetryOutcome | app/components/FileManager.tsx:82-120 | retry then success leaves the entry a success at 100 with no error, leaves every other entry unchanged, and does nothing for an unknown id |
| FileList.FileIconRule | app/components/FileList.tsx:32-43 | photo exactly for `image/` types, red document exactly for `application/pdf`, blue document exactly for other types containing `word`, grey for the rest and for a missing type |
| FileList.ImageTestFirst | app/components/FileList.tsx:35-36 | the image test comes first: an image type mentioning `word` is still a photo |
| FileList.FallbackLabels | app/components/FileList.tsx:24-25 | `0 Bytes` exactly for a missing or zero size, and `Unknown date` exactly for a missing or zero timestamp |
| MyFiles.PreviewIgnoresCase | app/MyFiles/page.tsx:49-88 | the preview depends only on the lower-cased extension, so a name and its lower-cased form get the same preview |
| MyFiles.UpperCaseImage | app/MyFiles/page.tsx:50-52 | a name ending in `.JPG` gets the image preview |
| MyFiles.DisplayNameRule | app/MyFiles/page.tsx:158-162 | names of up to 15 characters are shown whole; longer ones show their first 15 characters, `...`, and the text after their last dot |
| MyFiles.ShadingByRows | app/MyFiles/page.tsx:148-150 | the cards of one row of four share their shading, and the next row has the other one |
| TimerStopwatch.ParseTimerPattern | app/components/TimerStopwatch.tsx:77-84 | an input is accepted exactly when it has the form `hh:mm:ss` with up to two digits per field, and then sets hours·3600 + minutes·60 + seconds, an empty field counting as 0 |
| TimerStopwatch.NonNormalisedAccepted | app/components/TimerStopwatch.tsx:79-82 | fields are not range-checked: `00:99:99` is accepted as 6039 seconds |
| TimerStopwatch.FormatTimeRoundTrip | app/components/TimerStopwatch.tsx:87-92 | for under 100 hours, reading a formatted time back gives the same number of seconds |
| TimerStopwatch.FormatTimeFields | app/components/TimerStopwatch.tsx:87-92 | a formatted time has three fields: hours, minutes below 60 and seconds below 60 |
| TimerStopwatch.StopwatchCentiseconds | app/components/TimerStopwatch.tsx:94-101 | the stopwatch shows the formatted whole seconds, a dot, and two digits of hundredths |
| TimerStopwatch.ResetTimerConsistent | app/components/TimerStopwatch.tsx:60-68 | the reset text `00:02:00` and the reset 120 seconds describe the same time |
| TimerStopwatch.TimerState.HandleTimerTimeChange | app/components/TimerStopwatch.tsx:77-84 | an accepted input becomes the text and sets the time left; a rejected one changes nothing |
| TimerStopwatch.TimerState.StartTimer | app/components/TimerStopwatch.tsx:50-56 | with a timer present, it runs unpaused; without one nothing changes |
| TimerStopwatch.TimerState.SetTimerPaused | app/components/TimerStopwatch.tsx:58-59 | pause and resume set the paused flag only when a timer is present |
| TimerStopwatch.TimerState.ResetTimer | app/components/TimerStopwatch.tsx:60-68 | with a timer present, back to `00:02:00`, 120 seconds, not running and not paused; the stopwatch is untouched |
| TimerStopwatch.TimerState.StartStopwatch | app/components/TimerStopwatch.tsx:71 | the stopwatch runs; nothing else changes |
| TimerStopwatch.TimerState.SetStopwatchPaused | app/components/TimerStopwatch.tsx:72-73 | the stopwatch's paused flag is set; nothing else changes |
| TimerStopwatch.TimerState.ResetStopwatch | app/components/TimerStopwatch.tsx:74 | the stopwatch time goes back to 0; nothing else changes |
| ButtonProgress.ProgressAfterTicks | app/components/ButtonProgress.tsx:18-27 | from an empty bar, each of the first 20 ticks adds exactly 5, so the bar is a multiple of 5 within 0..100 |
| ButtonProgress.CompletionTick | app/components/ButtonProgress.tsx:20-25 | the bar is below 100 for the first 20 ticks, and the 21st tick finds it full |
| ButtonProgress.LabelRule | app/components/ButtonProgress.tsx:49-53 | `Uploading...` exactly while the bar is non-zero, then `Upload Complete` exactly when loaded, else `Upload File` |
| ButtonProgress.Button.Tick | app/components/ButtonProgress.tsx:18-27 | below 100 the bar grows by 5; at 100 the interval stops, the upload is loaded and the bar resets to 0 |
| ButtonProgress.Button.Click | app/components/ButtonProgress.tsx:29-38 | when loaded, a click clears the loaded state, the bar and the name; otherwise it starts the interval and calls `onClick` once, which may set the name |
| ButtonProgress.Button.RunToCompletion | app/components/ButtonProgress.tsx:18-27 | an interval started on an empty bar stops after exactly 21 ticks with the upload loaded |

## Left out

- MongoDB's query engine is reduced to what the seven owner queries need. A key holds nothing, a string or an owner object; a dotted path through a missing or plain-string owner holds nothing. A missing session value is sent as `null`, which matches exactly the records where the key holds nothing. Records that store an explicit `null` or an array, indexes and GridFS chunking are not modelled.
- In app/api/files/route.ts, `uploadStream.end` is not awaited. The model treats each record as written by the time the reply is sent.
- A failed connection to the database is the `Connection` parameter of every route. Per-file transfer errors are a `Fault` parameter of FilesRoute.Post and UploadRoute.Post only (which file fails, and its message).
- UploadRoute.Post: the `Fault` is an error of the GridFS upload stream. An error of the adapted source stream is not forwarded to the awaited promise, so the request would never answer; that hang is not modelled.
- Other driver and library failures are not modelled: `insertMany` throwing in app/api/files/route.ts:36; `getServerSession` or `find().toArray()` throwing in app/api/files/displayFiles/route.ts (a 500 with `details`); `findOne` and `insertOne` throwing in app/api/auth/login.ts and app/api/auth/register.ts; `bucket.find` and `bucket.delete` throwing in app/api/files/DeleteFiles/route.ts.
- Store.ParseObjectId accepts only 24-digit hexadecimal strings. The constructor's rejection message is the one of bson 6, whose constructor accepts only 24-character hexadecimal strings among strings. Its other accepted inputs (integers, 12-byte arrays) are left out, as is a non-string `fileId` in the JSON body. The next id is not bounded by 16^24.
- FilesRoute.MetadataFor: every `new Date()` call of a request gets one `now` value, both the one per file in the metadata map and the one per file in the upload loop, so their difference of a few milliseconds is not modelled.
- Request bodies, form data and query strings are given already parsed. JSON and multipart parsing errors are not modelled.
- FileManager.StepProgress: the model uses integer percentages. JavaScript's `(step / 10) * 100` gives 30.000000000000004 at step 3.
- FileList.FormatFileSize: only the zero branch is modelled. The logarithmic KB/MB/GB branch returns `None`, because it uses floating point and `toFixed`.
- FileList.FormatDate: only the fallback branch is modelled, because `toLocaleDateString` depends on the locale.
- FileManager.NameCompare: `localeCompare` is replaced by code-point order.
- Text.ToLower: `toLowerCase` is modelled on ASCII letters only. String lengths count code points, not UTF-16 units.
- FileManager.FileManagerState.Retry: the un-awaited `simulateUpload` runs to completion at once. Interleaving with other handlers, the 200 ms delays and React's batching of updates are not modelled.
- FileManager.FileManagerState.HandleDrop: the uuids are a parameter.
- The stopwatch's elapsed-time accumulation is not modelled. It uses floating point, `performance.now` and `requestAnimationFrame`.
- The easytimer library, the timer context's storage in `localStorage`, the countdown itself and its `alert` are not modelled. A timer's presence is a constructor flag.
- ButtonProgress.Button.Click: the caller's `onClick` callback is the `picked` parameter. The 20 ms interval is a sequence of `Tick` calls.
- The document-conversion routes are not part of this model, and neither are the rendering-only components, the configuration files, the mongoose models or app/mongodb.ts.
- The GitHub provider is not part of this model. The signed-in session is an input.
- MyFiles builds image-preview URLs without encoding the file name. The model covers only the preview choice.

## Findings

| source | as written | input that shows it | evidently intended | confidence | as-written member | corrected member |
|---|---|---|---|---|---|---|
| app/api/files/ServeDownloads/route.ts:21-23 | the 404 tests whether the stream handle is null, but `openDownloadStreamByName` always returns a stream object, so the branch never fires | `?filename=x` when no stored record is named `x`: the route answers 200 with an attachment whose stream has nothing to deliver | answer 404 when no stored file has the name | not executed | ServeDownloads.ServeDownloadMissingFile | ServeDownloads.ServeDownloadCheckedOutcomes |
| app/api/files/displayFiles/route.ts:31-40 | the queries put `session.user.email`, `name` and `id` into the filter even when they are missing; the driver sends a missing value as `null`, and `{ 'metadata.uploadedBy.email': null }` matches every record without that key | a GitHub user whose email is private (session email `null`) opens My Files: the listing holds every upload of app/api/files/route.ts and upload.ts, none of which records an owner | list only files recorded under the user, skipping queries whose session value is missing | not executed | DisplayFiles.MissingEmailListsUnowned | DisplayFiles.SelectOwnedOutcomes |
