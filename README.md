# Media upload and credit charging — a Dafny model

The repository is a Next.js front end and API for a service that collects evidence of a
rental property's condition. A signed-in user walks through a wizard:

- role;
- rental address;
- security deposit and currency;
- the other party's e-mail address;
- images (one credit each);
- optional videos (one credit per second);
- a review step that uploads everything.

The uploads are persisted by two API routes:

- POST `/api/s3/upload` (`app/api/s3/upload/route.ts`) records files a client has already put
  in S3. One Prisma transaction creates the record, charges the credits, marks the record
  uploaded and writes a row per file. On any exception it asks S3 to delete every key it was
  given.
- POST `/api/s3` (`app/api/s3/route.ts`, lines 1-211) is the older route. It receives the files
  themselves as multipart form data and uploads them to S3 inside the transaction, images
  first. On an exception it deletes what it uploaded, but only when fewer files were uploaded
  than were sent.

A separate contest page (`app/contest/page.tsx`) works differently. It asks for signed URLs,
uploads a single video with `XMLHttpRequest`, records each key whose upload answered 200,
commits, and on failure asks the backend to delete exactly the recorded keys. Its attempt
counter is bounded.

## Modelling approach

- **One module per source file**, plus a few shared modules:
  - `JsText`: the JavaScript semantics the code relies on (`parseInt`, NaN-ness of `parseFloat`,
    `String(n)`, `split`, `\s`).
  - `FileNames`: `truncateFileName`, which four files define with the same body, and the
    `slice`/`lastIndexOf` behaviour it needs.
  - `Email`: both e-mail regular expressions as grammars.
  - `Dropzone`: dropped files, de-duplication by name, rejection messages, duration sums.
  - `Storage`: the Prisma tables and the S3 bucket.
  - `NumericInput`: the accept-or-keep rule shared by the clip-count and clip-length fields.
- **Routes.** Each route is a declarative function (`CommitRoute.Handle`, `LegacyRoute.Run`)
  from the tables, the request and a `Fault` value naming the first call that throws. An
  imperative handler `Post` runs the same steps against a `Database` and an `ObjectStore`
  object, and its postcondition states that it agrees with the function. Prisma's
  `$transaction` is a snapshot of the tables, restored when the callback throws. The route
  properties are lemmas about the functions.
- **Pages and steps.** Each page or step with mutable state is a class whose fields are its
  React state. `State()` returns them as a datatype. Each handler is a method whose
  postcondition ties the new state to a specification function of the old state (`DropSpec`,
  `UploadSpec`, …). Invariants and properties are lemmas about those functions.
- **Network and browser calls are parameters:**
  - the signed-URL reply, one `Xhr` per video (its progress events and how it ends), and the
    commit reply;
  - whether the review post resolved;
  - a `uuid: nat -> string` oracle for generated keys;
  - the set of keys whose delete fails;
  - each file's media duration, carried on the file.

Five behaviours are worth knowing (each is proved; none is assumed):

- The contest page's commit body lacks the fields the commit route requires, so with a
  signed-in user the route answers it with 400 and changes nothing
  (`ContestPage.ContestCommitRejected`).
- The commit route charges the client-supplied `totalCredits` with no sign check. A negative
  value that is accepted adds credits (`CommitRoute.NegativeChargeAddsCredits`).
- When the legacy route's last file row or its commit fails, every object is already uploaded.
  Its cleanup condition is then false, so the objects stay in S3 without rows, although the
  comment at `app/api/s3/route.ts:196` says all uploaded objects are deleted
  (`LegacyRoute.LastStepFailureLeavesObjects`).
- Two videos with the same name dropped together are both charged the later one's duration,
  because `newDurations` is keyed by name (`VideoUpload.SameNameDropOvercounts`). With distinct
  names the totals are exact (`VideoUpload.DistinctDropTotals`).
- `formData.getAll` in the legacy route returns text entries too, and `as File[]` does not
  check them. A text entry under `image` or `video` makes its upload throw, so such a form never
  commits; the files uploaded before it are deleted (`LegacyRoute.TextEntryNeverCommits`,
  `LegacyRoute.TextPartThrows`).

## Model

| member | source | states |
|---|---|---|
| CommitRoute.SessionUserId | app/api/s3/upload/route.ts:76-80 | a user id is produced exactly when the session, its user and a non-empty id are all present, and it is that id |
| CommitRoute.Validate | app/api/s3/upload/route.ts:83-94 | the body is accepted iff every field test passes and `uploadedFiles` is a non-empty list. A missing list crashes on `.length` exactly when the earlier tests pass. Accepted values are the body's own fields and their `parseInt` readings, the e-mail has the route's shape, and the file list is non-empty |
| CommitRoute.CountKind | app/api/s3/upload/route.ts:113-114 | the count of descriptors of a kind never exceeds the number of descriptors |
| CommitRoute.CountKindSplit | app/api/s3/upload/route.ts:113-114 | when every descriptor's type is IMAGE or VIDEO, the IMAGE count plus the VIDEO count is the number of descriptors |
| CommitRoute.KindOf | app/api/s3/upload/route.ts:155 | defines how the `type` column reads a descriptor's type: IMAGE, VIDEO, or no value for any other text (`CommitRoute.UnknownTypeThrows`) |
| CommitRoute.KnownKinds | app/api/s3/upload/route.ts:146-159 | defines "every descriptor names a value the `type` column accepts", the condition under which all rows can be written |
| CommitRoute.UnknownTypeUncounted | app/api/s3/upload/route.ts:113-114 | a descriptor whose type is neither IMAGE nor VIDEO is counted in neither `numImages` nor `numVideos`, so the two counts add up to less than the number of files |
| CommitRoute.CountKindBoth | app/api/s3/upload/route.ts:113-114 | for any descriptors the IMAGE count plus the VIDEO count never exceeds the number of descriptors |
| CommitRoute.Keys | app/api/s3/upload/route.ts:96 | the captured keys are the descriptors' `s3Key`s, one per descriptor, in order |
| CommitRoute.Rows | app/api/s3/upload/route.ts:146-159 | one row per descriptor, in order, the i-th built from descriptor i |
| CommitRoute.NewRecord | app/api/s3/upload/route.ts:100-116 | defines the created record: the user, the body's fields and readings, the IMAGE and VIDEO counts. `CommitRoute.SuccessRecord` states what it holds |
| CommitRoute.RowOf | app/api/s3/upload/route.ts:147-158 | defines the row written for one descriptor. `CommitRoute.SuccessRows` states what it holds |
| CommitRoute.Transaction | app/api/s3/upload/route.ts:98-161 | the callback succeeds iff no call throws (no fault, user present, balance not below zero), and then the tables are exactly the committed ones |
| CommitRoute.CreateFiles | app/api/s3/upload/route.ts:146-159 | the `for` loop succeeds iff every type is IMAGE or VIDEO and no create in range fails, and then exactly one row per descriptor is appended, in order; credits and records are untouched |
| CommitRoute.FieldsPass | app/api/s3/upload/route.ts:83-94 | defines the field tests of the validation `if`, in the source's order: the truthy strings, the deposit and credits read by `parseInt(…, 10)`, the e-mail regex and `parseFloat` of the image size. `CommitRoute.Validate` states what they accept |
| CommitRoute.TxnThrows | app/api/s3/upload/route.ts:98-161 | defines when the transaction callback throws: a failing Prisma call, a row with a type the column does not accept, a missing user, or a balance the charge takes below zero. `CommitRoute.Transaction` proves the method throws exactly then |
| CommitRoute.Committed | app/api/s3/upload/route.ts:98-161 | defines the tables after a commit: the user charged, one record with status UPLOADED_TO_S3, one row per descriptor. `CommitRoute.SuccessCharges`, `SuccessRecord` and `SuccessRows` state what this means |
| CommitRoute.Handle | app/api/s3/upload/route.ts:44-169 | defines the route's outcome: 500 without JSON, then 401, 400, 500 with every key deleted when the transaction throws, and 200 with the committed tables. The lemmas from `CommitRoute.UnauthorizedFirst` to `NegativeChargeAddsCredits` state its properties |
| CommitRoute.UnknownTypeThrows | app/api/s3/upload/route.ts:146-159 | a valid body with a descriptor whose type is neither IMAGE nor VIDEO gets 500, leaves the tables unchanged and has every key deleted |
| CommitRoute.DeleteUploadedFiles | app/api/s3/upload/route.ts:27-42 | a delete is requested for every key, and exactly the keys whose delete does not fail are removed |
| CommitRoute.Post | app/api/s3/upload/route.ts:44-169 | the handler's response, tables, delete requests and surviving objects are those of `Handle` |
| CommitRoute.UnauthorizedFirst | app/api/s3/upload/route.ts:76-80 | without a session, user or user id the answer is 401, with no write and no delete |
| CommitRoute.InvalidInputNoEffect | app/api/s3/upload/route.ts:90-94 | a body failing any test, or with an empty file list, gets 400 and changes nothing |
| CommitRoute.SecondsUnchecked | app/api/s3/upload/route.ts:85-94 | changing `totalVideoSeconds` never changes whether a body is accepted |
| CommitRoute.FailureChangesNothing | app/api/s3/upload/route.ts:98-167 | every answer other than 200 leaves all three tables as they were |
| CommitRoute.DeletesAfterCapture | app/api/s3/upload/route.ts:45-167 | only a 500 deletes anything. After validation a 500 deletes every descriptor key. Unparseable JSON or a missing `uploadedFiles` gives 500 and deletes nothing |
| CommitRoute.InsufficientCredits | app/api/s3/upload/route.ts:119-130 | a charge taking the balance below zero gives 500, unchanged tables, and every key sent for deletion |
| CommitRoute.SuccessCommitted | app/api/s3/upload/route.ts:98-163 | a 200 implies a valid session and body and a transaction that did not throw, and the tables are the committed ones |
| CommitRoute.SuccessCharges | app/api/s3/upload/route.ts:108-130 | on 200 the user's balance drops by exactly `totalCredits` and stays at or above zero, and every other balance is unchanged |
| CommitRoute.SuccessRecord | app/api/s3/upload/route.ts:100-141 | on 200 exactly one record is appended. It belongs to the user, charges the credits, has status UPLOADED_TO_S3, and its image and video counts are the descriptor counts and add up to the number of files |
| CommitRoute.SuccessRows | app/api/s3/upload/route.ts:146-159 | on 200 one row per descriptor follows the old rows, in order. Each is linked to the new record, carries the descriptor's name, extension, key and location, its kind is the descriptor's type read as IMAGE or VIDEO, and its status is UPLOADED_TO_S3 |
| CommitRoute.BalancesStayNonNegative | app/api/s3/upload/route.ts:119-130 | the route never leaves a balance negative |
| CommitRoute.NegativeChargeAddsCredits | app/api/s3/upload/route.ts:84-126 | an accepted negative `totalCredits` that commits raises the user's balance |
| LegacyRoute.FormGet | app/api/s3/route.ts:32-38 | `formData.get` finds nothing for an absent name, and what it finds is a text entry under that name |
| LegacyRoute.FormGetAppend | app/api/s3/route.ts:32-38 | appending entries never changes what `get` finds for a name already present |
| LegacyRoute.FormFiles | app/api/s3/route.ts:40-41 | `formData.getAll` returns every entry under the name, file or text, in order: a value is in the result iff an entry with that name and value is in the form. The `as File[]` cast checks nothing |
| LegacyRoute.FormFilesAppend | app/api/s3/route.ts:40-41 | `getAll` of a concatenated form is the concatenation of the two results |
| LegacyRoute.Blobs | app/api/s3/route.ts:40-41 | file parts for a list of files: one per file, the i-th holding file i |
| LegacyRoute.ReadForm | app/api/s3/route.ts:30-41 | defines what the handler reads before its `try`: the five text fields by `get`, the three numbers by `parseInt` without a radix, and the image and video entries by `getAll`. `Review.RouteReadsForm` states what it reads from the wizard's form |
| LegacyRoute.Passes | app/api/s3/route.ts:59-62 | defines the validation `if`: truthy text fields, a deposit and credit count that are neither NaN nor 0, the e-mail regex, and at least one image entry. `LegacyRoute.FalsyFieldRejected`, `VideosOptional` and `Review.RouteAcceptsFormIff` state its properties |
| LegacyRoute.AllFiles | app/api/s3/route.ts:40-41 | defines "every image and video entry is a file", which the route needs for all its uploads to succeed (`LegacyRoute.TextEntryNeverCommits`) |
| LegacyRoute.Parts | app/api/s3/route.ts:106-150 | the route handles every image and then every video. The i-th part is image i, tagged IMAGE |
| LegacyRoute.Results | app/api/s3/route.ts:171-194 | the i-th upload result is `uploadFile` of part i in its kind's folder with the i-th uuid |
| LegacyRoute.ObjectUrl | app/api/s3/route.ts:192 | defines the `Location` template `https://<bucket>.s3.<region>.amazonaws.com/<key>` |
| LegacyRoute.UploadFile | app/api/s3/route.ts:171-194 | defines `uploadFile`'s result: the bucket, the key `folder/uuid` and its URL. `LegacyRoute.UploadKey` and `KeysDistinct` state its properties |
| LegacyRoute.Folder | app/api/s3/route.ts:112-135 | defines the folder of a kind: `images` or `videos` |
| LegacyRoute.KeyFor | app/api/s3/route.ts:173 | defines the key `folder/uuid` of a part. `LegacyRoute.FolderKey` states its shape |
| LegacyRoute.RowFor | app/api/s3/route.ts:116-149 | defines the row written for a file part and its upload result. `LegacyRoute.CommittedRow` states what it holds |
| LegacyRoute.LegacyRecord | app/api/s3/route.ts:66-79 | defines the created record: the user, the form's fields, and the image and video counts. `LegacyRoute.SuccessCharges` states what it holds |
| LegacyRoute.Committed | app/api/s3/route.ts:64-153 | defines the tables after a commit: the user charged, one record with status UPLOADED_TO_S3, one row per part. `LegacyRoute.SuccessCharges` and `SuccessKeepsRows` state what this means |
| LegacyRoute.ResultKeys | app/api/s3/route.ts:201-202 | the keys of the results, one per result, in order |
| LegacyRoute.RowsFor | app/api/s3/route.ts:116-126 | the rows of the first m parts, the i-th built from part i and result i |
| LegacyRoute.Pushed | app/api/s3/route.ts:106-150 | the number of results pushed when the transaction ends never exceeds the number of files |
| LegacyRoute.StopAt | app/api/s3/route.ts:106-150 | where an upload loop stops lies within the loop's range |
| LegacyRoute.EarlyThrow | app/api/s3/route.ts:64-93 | defines a throw before the uploads: the record create, the decrement or the status update fails, the user is missing, or the balance would go below zero. `LegacyRoute.Charge` proves the method throws exactly then |
| LegacyRoute.FirstText | app/api/s3/route.ts:106-150 | the index of the first text entry among the parts, or their number: every part before it is a file, and the part at it is text |
| LegacyRoute.Effective | app/api/s3/route.ts:112-135 | defines the first throw of the loops: the given fault, unless the upload of the first text entry (`file.stream` on a string) comes earlier, which then throws |
| LegacyRoute.EffectiveAllFiles | app/api/s3/route.ts:112-135 | with every part a file, the first throw is the given fault |
| LegacyRoute.EffectiveNotBefore | app/api/s3/route.ts:106-150 | when no part before k is text and no fault is set before k, the first text entry and the first throw both lie at or after k |
| LegacyRoute.LoopStep | app/api/s3/route.ts:106-150 | one loop step: part k throws on upload when it is text or its upload fails (stopping at k), throws on the row when that fails (stopping at k + 1), and otherwise the loop goes on to k + 1 |
| LegacyRoute.LoopEnd | app/api/s3/route.ts:106-150 | a loop whose range holds only files and no fault runs to its end without a throw |
| LegacyRoute.Throws | app/api/s3/route.ts:64-153 | defines when the transaction throws: early, in the image loop, in the video loop, or at the commit. `LegacyRoute.Transaction` proves the method throws exactly then |
| LegacyRoute.ThrowStages | app/api/s3/route.ts:64-153 | after the charge, a throw in the image loop ends the callback there, a throw in the video loop ends it there, and with neither every part was pushed and the callback throws iff the commit fails |
| LegacyRoute.Charge | app/api/s3/route.ts:66-104 | the first three calls succeed iff nothing throws before the uploads. The record then has the next id and status UPLOADED_TO_S3, the balance is decremented by the credits, and the rows are untouched |
| LegacyRoute.UploadLoop | app/api/s3/route.ts:106-150 | the loop succeeds iff no upload or row in its range throws, where a text entry's upload counts as a throw (`LegacyRoute.Effective`). The pushed results are the first `StopAt` results. Every pushed key is in the bucket, and on success one row per part follows the old rows |
| LegacyRoute.Transaction | app/api/s3/route.ts:64-153 | the callback succeeds iff nothing throws, a text entry's upload included. The pushed results are exactly the first `Pushed` ones, their keys are added to the bucket, and on success every entry was a file and the tables are the committed ones |
| LegacyRoute.PutAndPush | app/api/s3/route.ts:112-113 | an upload puts its key in the bucket before its result is pushed |
| LegacyRoute.UploadPart | app/api/s3/route.ts:112-126 | one loop step: a text entry or a failing upload stops before the push, a failing row stops after it, and otherwise one more result is pushed, its key is in the bucket and one more row is written |
| LegacyRoute.WriteRow | app/api/s3/route.ts:116-126 | one more row, built from part k and result k |
| LegacyRoute.DeleteFiles | app/api/s3/route.ts:196-211 | a delete is requested for every uploaded file, in order. A failing delete leaves its object and does not stop the loop |
| LegacyRoute.Post | app/api/s3/route.ts:27-169 | the handler's response, tables, uploads, delete requests and surviving objects are those of `Handle` |
| LegacyRoute.Run | app/api/s3/route.ts:59-168 | defines the outcome after the session check: 400 on failed validation, 500 with the tables unchanged and the pushed keys deleted when fewer than all were pushed, or 200 with the committed tables. The lemmas from `LegacyRoute.FalsyFieldRejected` to `TextAfterImageExample` state its properties |
| LegacyRoute.Handle | app/api/s3/route.ts:27-169 | defines the route's outcome: 401 without a session, otherwise `Run` on what `ReadForm` reads. `LegacyRoute.NoSessionFirst` and `Post` state its properties |
| LegacyRoute.Execute | app/api/s3/route.ts:59-168 | everything after the session check agrees with `Run` |
| LegacyRoute.NoSessionFirst | app/api/s3/route.ts:52-57 | without a session the answer is 401, nothing changes, and nothing is uploaded or deleted |
| LegacyRoute.FalsyFieldRejected | app/api/s3/route.ts:59-62 | a deposit or credit count that parses to NaN or 0, or no image, gets 400 with no effect |
| LegacyRoute.VideosOptional | app/api/s3/route.ts:59-62 | validation never looks at the videos |
| LegacyRoute.KeysDistinct | app/api/s3/route.ts:171-173 | with distinct uuids all generated keys are distinct, across folders too |
| LegacyRoute.CommittedRow | app/api/s3/route.ts:116-149 | after a commit part k is a file, and the row at old-length + k belongs to the record, names that file and kind, and points at `folder/uuid(k)` |
| LegacyRoute.UploadKey | app/api/s3/route.ts:173 | `uploadFile`'s key is the folder, '/', and the uuid |
| LegacyRoute.FolderKey | app/api/s3/route.ts:112-135 | image keys are `images/<uuid>` and video keys `videos/<uuid>` |
| LegacyRoute.SuccessCharges | app/api/s3/route.ts:64-155 | on success the answer is 200 and every key was uploaded with none deleted. The balance drops by the credits and covered them. One record is appended for the user, counting the images and videos, with status UPLOADED_TO_S3 |
| LegacyRoute.SuccessKeepsRows | app/api/s3/route.ts:106-150 | on success the old rows stay in front, followed by one row per file |
| LegacyRoute.SuccessPartRows | app/api/s3/route.ts:106-150 | on success part k's row sits right after the old rows and the k parts before it |
| LegacyRoute.ImageRowsOfParts | app/api/s3/route.ts:106-127 | in the part order the images come first, so row i is image i's |
| LegacyRoute.VideoRowsOfParts | app/api/s3/route.ts:129-150 | the videos follow all images, so row images+j is video j's |
| LegacyRoute.ImageRows | app/api/s3/route.ts:106-127 | defines "image i is a file and row base + i names it, with kind IMAGE and key `images/uuid(i)`" |
| LegacyRoute.VideoRows | app/api/s3/route.ts:129-150 | defines "video j is a file and row base + images + j names it, with kind VIDEO and key `videos/uuid(images + j)`" |
| LegacyRoute.SuccessImageRows | app/api/s3/route.ts:106-127 | on success image i is a file and its row names that file, has kind IMAGE and key `images/uuid(i)` |
| LegacyRoute.SuccessVideoRows | app/api/s3/route.ts:129-150 | on success video j is a file and its row sits at old-length + images + j, names that file, has kind VIDEO and key `videos/uuid(images + j)` |
| LegacyRoute.NegativeBalanceBeforeUploads | app/api/s3/route.ts:82-93 | a balance the charge would take below zero throws before any upload: 500, nothing uploaded, nothing deleted, tables unchanged |
| LegacyRoute.FailureRollsBack | app/api/s3/route.ts:156-168 | any throw gives 500 with the tables rolled back. Fewer pushed results than files deletes exactly the uploaded keys, and a full count deletes nothing |
| LegacyRoute.LastStepFailureLeavesObjects | app/api/s3/route.ts:159-165 | when every entry is a file and the last row or the commit fails, every key is uploaded and none is deleted |
| LegacyRoute.UploadFailureDeletesEarlier | app/api/s3/route.ts:106-165 | when the parts before k are files and upload k throws, exactly the first k keys were uploaded and all of them are deleted |
| LegacyRoute.NoThrowAllFiles | app/api/s3/route.ts:106-153 | a transaction that does not throw had only files among its parts, and its first throw is the given fault |
| LegacyRoute.AllFilesParts | app/api/s3/route.ts:106-150 | every image and video entry is a file iff every part is a file |
| LegacyRoute.TextPartThrows | app/api/s3/route.ts:106-168 | when the first text entry is part k and nothing throws before it, the answer is 500, the tables are unchanged, and exactly the first k keys were uploaded and are deleted |
| LegacyRoute.TextEntryNeverCommits | app/api/s3/route.ts:40-168 | a valid form with a text entry under `image` or `video` always gets 500 and leaves the tables unchanged |
| LegacyRoute.TextAfterImageExample | app/api/s3/route.ts:40-168 | a file followed by a text entry under `image`, with enough credits and no fault: 500, the tables unchanged, and the first image's key uploaded and then deleted |
| ContestPage.TotalSizeAppend | app/contest/page.tsx:103-105 | `calculateTotalSize` of a concatenation is the sum of the two totals |
| ContestPage.TotalSizeCovers | app/contest/page.tsx:103-105 | every file's size is at most the total |
| ContestPage.TotalSize | app/contest/page.tsx:103-105 | defines `calculateTotalSize`. `ContestPage.TotalSizeAppend` and `TotalSizeCovers` state its properties |
| ContestPage.SumProgress | app/contest/page.tsx:278 | defines the sum of the progress entries. `ContestPage.SumProgressBounded` bounds it |
| ContestPage.LastProgress | app/contest/page.tsx:117-126 | defines the entry a file's progress events leave. `ContestPage.LastProgressBounded` bounds it |
| ContestPage.OverallProgress | app/contest/page.tsx:278 | the overall progress is NaN exactly for an empty array; otherwise it times the count equals the sum |
| ContestPage.SumProgressBounded | app/contest/page.tsx:278 | a sum of n percentages lies between 0 and 100·n |
| ContestPage.OverallProgressBounded | app/contest/page.tsx:278 | the mean of percentages is a percentage |
| ContestPage.LastProgressBounded | app/contest/page.tsx:117-126 | events that never load more than their total leave the entry a percentage |
| ContestPage.Zeros | app/contest/page.tsx:179 | n entries, all 0 |
| ContestPage.ProgressAfter | app/contest/page.tsx:117-126 | once files 0..m-1 have played their events, entry i < m holds file i's last counted percentage and every later entry is 0 |
| ContestPage.FirstFailure | app/contest/page.tsx:211-213 | the first upload that does not answer 200: all before it succeed and it fails, or all succeed |
| ContestPage.SignedKeys | app/contest/page.tsx:207-209 | the signed URLs' keys, in order |
| ContestPage.Descriptors | app/contest/page.tsx:215-222 | descriptor i is video i's name and subtype, paired with signed URL i's key and URL, typed VIDEO |
| ContestPage.ContestCommitRejected | app/contest/page.tsx:228-242 | with a signed-in user the commit route answers every commit body the page sends with 400 and changes nothing |
| ContestPage.RetryBlocked | app/contest/page.tsx:367-374 | from three failed attempts on, a click on "Submit Again" changes nothing |
| ContestPage.ClickKeepsValid | app/contest/page.tsx:255-274 | a click keeps attempts within 0..3, with the timer pending exactly at 3 and 3 reached only through a failure |
| ContestPage.DropKeepsValid | app/contest/page.tsx:52-81 | a drop keeps the attempt invariant |
| ContestPage.TimerKeepsValid | app/contest/page.tsx:271-273 | the support timer sets attempts back to 0 and keeps the invariant |
| ContestPage.UploadAttempts | app/contest/page.tsx:170-276 | an attempt either fails through the catch block (one more attempt; the timer is armed when it started at 2) or leaves the counter and the timer alone |
| ContestPage.NoVideoNoUpload | app/contest/page.tsx:171-173 | with no video selected `onUpload` changes nothing |
| ContestPage.DropOverCapRefused | app/contest/page.tsx:53-59 | before a successful upload, a drop taking the count past 1 keeps the selection and the seconds, clears the rejections and toasts the cap message |
| ContestPage.DropWithinCap | app/contest/page.tsx:61-80 | before a successful upload, a drop within the cap keeps the selection as a prefix and appends only files with new names. The seconds are the floor of the summed durations, and the rejections are listed |
| ContestPage.UploadFailureDeletesRecorded | app/contest/page.tsx:128-139 | when upload k is the first failure, the recorded keys are exactly files 0..k-1's, in order. They are posted to the delete endpoint and no commit is sent. Attempts rise by one, the failure flags are set, and progress entries after k stay 0 |
| ContestPage.CommitOnlyAfterAllUploads | app/contest/page.tsx:207-242 | a commit is sent only when URLs arrived for every video and every upload answered 200. It carries one descriptor per video, and the recorded keys are the signed keys in order |
| ContestPage.FailureBookkeeping | app/contest/page.tsx:251-275 | every failing attempt posts the recorded keys for deletion, adds one attempt and sets the failure flags. An attempt that started at 2 also arms the reset and ends with the support message |
| ContestPage.FailureToastsRule | app/contest/page.tsx:253-270 | the failure toast appears unless a non-server message hits an attempt that started at 2, and the support message appears exactly on such attempts, last |
| ContestPage.ServerMessageMatches | app/contest/page.tsx:254 | the message the page singles out is the commit route's own 500 message |
| ContestPage.AsCommitBody | app/contest/page.tsx:215-232 | defines the commit request as the commit route reads it: only the seconds (as `parseInt` reads the JSON number), the folder and the descriptors are present. `ContestPage.ContestCommitRejected` states what follows |
| ContestPage.DropSpec | app/contest/page.tsx:52-81 | defines `onDrop`: nothing after a successful upload, the cap message for a drop past one video, otherwise the new names appended and the seconds recomputed. `ContestPage.DropOverCapRefused`, `DropWithinCap` and `DropKeepsValid` state its properties |
| ContestPage.Caught | app/contest/page.tsx:251-275 | defines the catch block. `ContestPage.FailureBookkeeping` and `FailureToastsRule` state its properties |
| ContestPage.FailureToasts | app/contest/page.tsx:253-270 | defines the catch block's toasts. `ContestPage.FailureToastsRule` states when each appears |
| ContestPage.Started | app/contest/page.tsx:175-179 | defines the per-attempt reset that `ContestPage.Contest.Start` performs |
| ContestPage.AfterCommit | app/contest/page.tsx:228-250 | defines the commit request and what its reply leads to: success on 200, the catch block otherwise |
| ContestPage.AfterUrls | app/contest/page.tsx:207-250 | defines the uploads up to the first failure and then the catch block or the commit. `ContestPage.UploadFailureDeletesRecorded` and `CommitOnlyAfterAllUploads` state its properties |
| ContestPage.AfterReply | app/contest/page.tsx:183-205 | defines the reaction to the signed-URL reply: the catch block on a network error, an error reply or too few URLs, the "could not upload" toast without URLs or folder, and the uploads otherwise |
| ContestPage.UploadSpec | app/contest/page.tsx:170-276 | defines `onUpload`: nothing without a video, otherwise the reset and then the signed-URL reply. `ContestPage.NoVideoNoUpload` and `UploadAttempts` state its properties |
| ContestPage.SubmitDisabled | app/contest/page.tsx:359-366 | defines when Submit is disabled: no video, no description or no sharing URL |
| ContestPage.RetryDisabled | app/contest/page.tsx:367-374 | defines when "Submit Again" is disabled: three attempts or more. `ContestPage.RetryBlocked` states what follows |
| ContestPage.ButtonEnabled | app/contest/page.tsx:355-375 | defines which button is shown (Submit until an attempt fails, then "Submit Again") and whether it is enabled |
| ContestPage.ClickSpec | app/contest/page.tsx:294-375 | defines a click: `onUpload` when the shown button is enabled and no upload succeeded yet, nothing otherwise. `ContestPage.ClickKeepsValid` and `RetryBlocked` state its properties |
| ContestPage.EditSpec | app/contest/page.tsx:294-353 | defines typing into the description or sharing-URL field, which are gone after a successful upload. `ContestPage.SuccessIsFinal` states what follows |
| ContestPage.TimerSpec | app/contest/page.tsx:271-273 | defines the support timer: attempts back to 0, the timer no longer pending. `ContestPage.TimerKeepsValid` states what follows |
| ContestPage.Valid | app/contest/page.tsx:255-274 | defines the attempt invariant: attempts within 0..3, the timer pending exactly at 3, and 3 reached only through a failure |
| ContestPage.SuccessIsFinal | app/contest/page.tsx:294-305 | after a successful upload a drop, a click and typing change nothing, and the support timer keeps the success flag |
| ContestPage.UploadStep | app/contest/page.tsx:207-213 | one more successful upload appends its signed key to the recorded keys and plays its progress events into its own entry |
| ContestPage.FirstFailureAt | app/contest/page.tsx:211-213 | when uploads 0..k-1 succeed and upload k (if any) fails, the first failure is k |
| ContestPage.Contest.constructor | app/contest/page.tsx:15-26 | the initial state, which satisfies the invariant |
| ContestPage.Contest.SetDescription | app/contest/page.tsx:345 | the new state is `EditSpec` of the old: before a successful upload only the description changes, after it nothing does |
| ContestPage.Contest.SetSocialShareUrl | app/contest/page.tsx:353 | the new state is `EditSpec` of the old: before a successful upload only the sharing URL changes, after it nothing does |
| ContestPage.Contest.OnDrop | app/contest/page.tsx:52-81 | the new state is `DropSpec` of the old, which leaves the state alone after a successful upload |
| ContestPage.Contest.UploadFileToS3 | app/contest/page.tsx:111-154 | the result is success iff the XHR answered 200. Only the entry at the file's index takes its last counted percentage, and the key is recorded only on success |
| ContestPage.Contest.DeleteUploadedFiles | app/contest/page.tsx:156-168 | one delete request with the given keys, nothing else |
| ContestPage.Contest.Catch | app/contest/page.tsx:251-275 | the new state is `Caught` of the old |
| ContestPage.Contest.UploadAll | app/contest/page.tsx:207-213 | the loop stops at `FirstFailure`. The recorded keys are the signed keys before it, and the progress entries up to and including the failing file have played their events |
| ContestPage.Contest.UploadAndCommit | app/contest/page.tsx:207-250 | the new state is `AfterUrls` of the old |
| ContestPage.Contest.OnUpload | app/contest/page.tsx:170-276 | the new state is `UploadSpec` of the old |
| ContestPage.Contest.Start | app/contest/page.tsx:175-179 | the per-attempt reset: uploading, flags cleared, no recorded key, one zero per video |
| ContestPage.Contest.HandleReply | app/contest/page.tsx:183-205 | the new state is `AfterReply` of the old |
| ContestPage.Contest.Click | app/contest/page.tsx:294-375 | the new state is `ClickSpec` of the old: a disabled button, or the success view with no button, does nothing |
| ContestPage.Contest.SupportTimerFires | app/contest/page.tsx:271-273 | attempts back to 0, the timer no longer pending |
| ContestPage.TotalDuration | app/contest/page.tsx:68-75 | the loop's total is the sum of the selection's durations |
| ImageUpload.LoadKeepsValid | components/dashboard/steps/ImageUpload.tsx:22-55 | after the balance settles, the message is exactly the current shortfall message, or empty when the balance covers the selection |
| ImageUpload.DropKeepsValid | components/dashboard/steps/ImageUpload.tsx:64-85 | after a drop the message is exactly the shortfall message for the new selection |
| ImageUpload.ResetKeepsValid | components/dashboard/steps/ImageUpload.tsx:149 | Reset keeps the message in step with the (empty) selection |
| ImageUpload.DropAppends | components/dashboard/steps/ImageUpload.tsx:68-72 | the old selection stays as a prefix. Everything appended was dropped and has a new name, and every dropped file with a new name is appended |
| ImageUpload.DropMessage | components/dashboard/steps/ImageUpload.tsx:74-84 | the message shows iff selected + new > available and names the difference, with a toast only then. The rejection lines are listed |
| ImageUpload.NextRule | components/dashboard/steps/ImageUpload.tsx:155 | once loaded, Next is disabled iff nothing is selected or a credits message shows |
| ImageUpload.ExpectedMessage | components/dashboard/steps/ImageUpload.tsx:44-55 | defines the message the credits check leaves: the shortfall message when more images are selected than credits are available, empty otherwise |
| ImageUpload.CreditsCheck | components/dashboard/steps/ImageUpload.tsx:44-55 | defines the credits check. `ImageUpload.DropMessage` and `LoadKeepsValid` state its properties |
| ImageUpload.LoadSpec | components/dashboard/steps/ImageUpload.tsx:22-55 | defines the settled balance request followed by the credits check. `ImageUpload.LoadKeepsValid` states what follows |
| ImageUpload.DropSpec | components/dashboard/steps/ImageUpload.tsx:64-85 | defines `onDrop`. `ImageUpload.DropAppends`, `DropMessage` and `DropKeepsValid` state its properties |
| ImageUpload.ResetSpec | components/dashboard/steps/ImageUpload.tsx:149 | defines the Reset button. `ImageUpload.ResetKeepsValid` states what follows |
| ImageUpload.NextDisabled | components/dashboard/steps/ImageUpload.tsx:155 | defines when Next is disabled. `ImageUpload.NextRule` relates it to the message |
| ImageUpload.Valid | components/dashboard/steps/ImageUpload.tsx:44-55 | defines the invariant that the message is empty while loading and the current shortfall once loaded |
| ImageUpload.ImageStep.constructor | components/dashboard/steps/ImageUpload.tsx:14-18 | the first render: balance 0, loading, no messages |
| ImageUpload.ImageStep.CheckCredits | components/dashboard/steps/ImageUpload.tsx:44-55 | the new state is `CreditsCheck` of the old |
| ImageUpload.ImageStep.LoadCredits | components/dashboard/steps/ImageUpload.tsx:22-31 | the new state is `LoadSpec` of the old |
| ImageUpload.ImageStep.OnDrop | components/dashboard/steps/ImageUpload.tsx:64-85 | the new state is `DropSpec` of the old |
| ImageUpload.ImageStep.Reset | components/dashboard/steps/ImageUpload.tsx:149 | selection, rejections and message cleared |
| VideoUpload.DurationMap | components/dashboard/steps/VideoUpload.tsx:114-119 | `newDurations` has an entry exactly for the names of the new files |
| VideoUpload.DropKeepsValid | components/dashboard/steps/VideoUpload.tsx:103-135 | a drop keeps at most five videos and no seconds for an empty selection |
| VideoUpload.HandlersKeepValid | components/dashboard/steps/VideoUpload.tsx:49-76 | loading the balance, Reset and the Next click keep that invariant |
| VideoUpload.DropOverCapRefused | components/dashboard/steps/VideoUpload.tsx:103-108 | a drop with selected + dropped > 5 keeps the selection and seconds, shows the cap message and clears the rejections |
| VideoUpload.DropCredits | components/dashboard/steps/VideoUpload.tsx:124-142 | after a drop the message shows iff images + seconds > available and names the difference. The step is no longer skipped, and Next is disabled iff the message shows |
| VideoUpload.RecalcCredits | components/dashboard/steps/VideoUpload.tsx:49-76 | with a non-zero balance the seconds are the floor of the summed durations and the message follows the same rule |
| VideoUpload.DurationMapOwn | components/dashboard/steps/VideoUpload.tsx:114-119 | with distinct names each file's entry is its own duration |
| VideoUpload.ChargedSumOwn | components/dashboard/steps/VideoUpload.tsx:127-131 | when every looked-up duration is the file's own, the drop's total is the plain sum |
| VideoUpload.DistinctDropTotals | components/dashboard/steps/VideoUpload.tsx:110-131 | when the new files have distinct names, the drop totals each video's own duration |
| VideoUpload.SameNameDropOvercounts | components/dashboard/steps/VideoUpload.tsx:114-131 | two dropped files sharing a name are both charged the later duration (10 seconds instead of 8) |
| VideoUpload.SkipEnablesNext | components/dashboard/steps/VideoUpload.tsx:222-231 | with no video, clicking the button marks the step skipped; Next is then enabled and reads "Next", and it reads "Skip" iff not skipped |
| VideoUpload.ChargedDuration | components/dashboard/steps/VideoUpload.tsx:128 | defines the duration a drop charges for a file: its `newDurations` entry when present and non-zero, its own duration otherwise. `VideoUpload.SameNameDropOvercounts` shows the consequence |
| VideoUpload.ChargedSum | components/dashboard/steps/VideoUpload.tsx:127-131 | defines the drop's total over the selection. `VideoUpload.ChargedSumOwn` and `DistinctDropTotals` state its properties |
| VideoUpload.CreditsCheck | components/dashboard/steps/VideoUpload.tsx:137-142 | defines the credits check: the shortfall message and a toast when credits are short, an empty message otherwise. `VideoUpload.DropCredits` and `RecalcCredits` state its properties |
| VideoUpload.Totalled | components/dashboard/steps/VideoUpload.tsx:133-142 | defines recording the floored seconds and checking images + seconds against the balance |
| VideoUpload.DropSpec | components/dashboard/steps/VideoUpload.tsx:99-148 | defines `onDrop`. `VideoUpload.DropOverCapRefused`, `DropCredits` and `DropKeepsValid` state its properties |
| VideoUpload.RecalcSpec | components/dashboard/steps/VideoUpload.tsx:49-76 | defines the effect on the balance: skipped at 0, otherwise the totals recomputed. `VideoUpload.RecalcCredits` states its properties |
| VideoUpload.LoadSpec | components/dashboard/steps/VideoUpload.tsx:27-36 | defines the settled balance request, which triggers the effect when the balance changed. `VideoUpload.HandlersKeepValid` states what follows |
| VideoUpload.ResetSpec | components/dashboard/steps/VideoUpload.tsx:212-217 | defines the Reset button |
| VideoUpload.NextClickSpec | components/dashboard/steps/VideoUpload.tsx:222-227 | defines the Next click. `VideoUpload.SkipEnablesNext` states what follows |
| VideoUpload.NextDisabled | components/dashboard/steps/VideoUpload.tsx:228 | defines when Next is disabled: seconds plus images exceed the balance and the step is not skipped |
| VideoUpload.ButtonLabel | components/dashboard/steps/VideoUpload.tsx:231 | defines the button label: "Skip" with no video before skipping, "Next" otherwise |
| VideoUpload.Valid | components/dashboard/steps/VideoUpload.tsx:103-135 | defines the invariant: at most five videos, and no seconds counted for an empty selection |
| VideoUpload.VideoStep.constructor | components/dashboard/steps/VideoUpload.tsx:15-21 | the first render with the wizard's selections |
| VideoUpload.VideoStep.ApplyTotals | components/dashboard/steps/VideoUpload.tsx:133-142 | the new state is `Totalled` of the old |
| VideoUpload.VideoStep.Recalculate | components/dashboard/steps/VideoUpload.tsx:49-76 | the new state is `RecalcSpec` of the old |
| VideoUpload.VideoStep.LoadCredits | components/dashboard/steps/VideoUpload.tsx:27-36 | the new state is `LoadSpec` of the old |
| VideoUpload.VideoStep.OnDrop | components/dashboard/steps/VideoUpload.tsx:99-148 | the new state is `DropSpec` of the old |
| VideoUpload.VideoStep.AddFiles | components/dashboard/steps/VideoUpload.tsx:110-142 | the selection grows by the new files and the totals are taken over it through `newDurations` |
| VideoUpload.VideoStep.Reset | components/dashboard/steps/VideoUpload.tsx:212-217 | no videos, no messages, zero seconds |
| VideoUpload.VideoStep.ClickNext | components/dashboard/steps/VideoUpload.tsx:222-227 | leaving without videos marks the step skipped |
| VideoUpload.MeasureDurations | components/dashboard/steps/VideoUpload.tsx:116-119 | the loop builds exactly `DurationMap` of the new files |
| VideoUpload.DropTotals | components/dashboard/steps/VideoUpload.tsx:124-131 | the loop's seconds are the charged sum and its credits are images plus seconds |
| Review.EmailLabelRule | components/dashboard/steps/Review.tsx:32 | the label is "Landlord Email:" iff the role is 'Tenant', and "Tenant Email:" otherwise |
| Review.FileEntries | components/dashboard/steps/Review.tsx:91-100 | one file part per file under the given name, in order |
| Review.CreditsAreImagesPlusSeconds | components/dashboard/steps/Review.tsx:55-73 | the seconds are the floor of the summed durations, and the credits are the image count plus those seconds |
| Review.UploadEffects | components/dashboard/steps/Review.tsx:75-112 | with no image nothing happens. Otherwise exactly one form is posted and the uploading flag ends cleared whatever the outcome |
| Review.FormLayout | components/dashboard/steps/Review.tsx:82-101 | the six text fields in order, one 'image' part per image, then, only with videos, the seconds and one 'video' part per video |
| Review.RouteReadsForm | components/dashboard/steps/Review.tsx:84-101 | the legacy route reads back every text field as sent, the credits and seconds as computed (the seconds only with videos), and the images and videos as file parts in selection order |
| Review.RouteAcceptsFormIff | components/dashboard/steps/Review.tsx:84-101 | the legacy route accepts the form iff the text fields are non-empty, the deposit reads as a non-zero number, the e-mail has the route's shape and the credits are not 0 |
| Review.ReadTextFields | components/dashboard/steps/Review.tsx:84-89 | `get` of each of the six text fields finds its value, whatever follows |
| Review.ReadSecondsField | components/dashboard/steps/Review.tsx:95-96 | the seconds field is present exactly when there is a video |
| Review.ReadImageParts | components/dashboard/steps/Review.tsx:91-93 | `getAll('image')` is one file part per selected image, in order |
| Review.ReadVideoParts | components/dashboard/steps/Review.tsx:98-100 | `getAll('video')` is one file part per selected video, in order |
| Review.FormFilesOfEntries | components/dashboard/steps/Review.tsx:91-100 | `getAll` of file parts under one name returns one file part per file, in order |
| Review.ReviewStep.constructor | components/dashboard/steps/Review.tsx:27-30 | loading, not uploading, zero totals |
| Review.ReviewStep.CalculateCredits | components/dashboard/steps/Review.tsx:55-73 | the new state is `CalculateSpec` of the old |
| Review.ReviewStep.OnUpload | components/dashboard/steps/Review.tsx:75-112 | the new state is `UploadSpec` of the old |
| Review.BuildForm | components/dashboard/steps/Review.tsx:82-101 | the `append` calls build exactly `UploadForm` |
| Review.EmailLabel | components/dashboard/steps/Review.tsx:32 | defines the e-mail label. `Review.EmailLabelRule` states its rule |
| Review.CalculateSpec | components/dashboard/steps/Review.tsx:55-73 | defines the credits calculation. `Review.CreditsAreImagesPlusSeconds` states its result |
| Review.TextFields | components/dashboard/steps/Review.tsx:84-89 | defines the six text fields appended first, in order |
| Review.VideoFields | components/dashboard/steps/Review.tsx:95-100 | defines the seconds field and one `video` part per video |
| Review.UploadForm | components/dashboard/steps/Review.tsx:82-101 | defines the posted form. `Review.FormLayout`, `RouteReadsForm` and `RouteAcceptsFormIff` state its properties |
| Review.UploadSpec | components/dashboard/steps/Review.tsx:75-112 | defines `handleUpload`. `Review.UploadEffects` states its properties |
| NumericInput.AcceptsIff | components/dashboard/steps/ClipAmount.tsx:21 | the handler's test holds iff the text is empty or a digit string whose decimal value is in range |
| NumericInput.OnChangeRule | components/dashboard/steps/ClipAmount.tsx:17-24 | an edit is taken iff it is in range, otherwise the text stays; the field stays in range |
| NumericInput.LeadingZero | components/dashboard/steps/ClipAmount.tsx:21 | a leading zero keeps a digit string a digit string and keeps its value |
| NumericInput.LeadingZeroAccepted | components/dashboard/steps/ClipAmount.tsx:21 | a zero-padded value is accepted iff the value is |
| NumericInput.Accepts | components/dashboard/steps/ClipAmount.tsx:21 | defines the handler's test: empty, or all digits with `parseInt(value, 10)` in range. `NumericInput.AcceptsIff` states it in closed form |
| NumericInput.OnChange | components/dashboard/steps/ClipAmount.tsx:17-24 | defines the field after a change event. `NumericInput.OnChangeRule` states its rule |
| NumericInput.InRange | components/dashboard/steps/ClipAmount.tsx:21 | defines what the field can hold: nothing, or a digit string whose value is in range |
| ClipAmount.AmountChange | components/dashboard/steps/ClipAmount.tsx:17-24 | an edit is taken iff it is empty or a digit string worth 1 to 3, the field stays valid, and an enabled Next implies such a count |
| ClipAmount.HandleAmountChange | components/dashboard/steps/ClipAmount.tsx:17-24 | defines the clip-count handler as the numeric rule for 1 to 3. `ClipAmount.AmountChange` states what follows |
| ClipAmount.NextDisabled | components/dashboard/steps/ClipAmount.tsx:17-24 | defines when Next is disabled: the field is empty |
| ClipAmount.Valid | components/dashboard/steps/ClipAmount.tsx:17-24 | defines the field invariant: empty, or a count from 1 to 3 |
| DurationStep.DurationChange | components/dashboard/steps/Duration.tsx:17-24 | an edit is taken iff it is empty or a digit string worth 1 to 60, the field stays valid, and the label is "Next" iff a length is entered |
| DurationStep.HandleDurationChange | components/dashboard/steps/Duration.tsx:17-24 | defines the clip-length handler as the numeric rule for 1 to 60. `DurationStep.DurationChange` states what follows |
| DurationStep.ButtonLabel | components/dashboard/steps/Duration.tsx:17-24 | defines the label: "Next" with a length entered, "Skip" otherwise |
| DurationStep.Valid | components/dashboard/steps/Duration.tsx:17-24 | defines the field invariant: empty, or 1 to 60 seconds |
| SecurityDeposit.HandlersKeepValid | components/dashboard/steps/SecurityDeposit.tsx:46-56 | an amount edit is taken iff it is all digits and leaves the currency alone, a currency edit replaces only the currency, and the amount stays a digit string |
| SecurityDeposit.CurrencyNames | components/dashboard/steps/SecurityDeposit.tsx:34 | the list is each item's `currency`, in fetched order |
| SecurityDeposit.AmountReadByRoute | components/dashboard/steps/SecurityDeposit.tsx:48-50 | once Next is enabled, `parseInt` reads the amount back as its decimal value |
| SecurityDeposit.HandleAmountChange | components/dashboard/steps/SecurityDeposit.tsx:46-50 | defines the amount handler: all-digit text is taken, anything else is ignored. `SecurityDeposit.HandlersKeepValid` states what follows |
| SecurityDeposit.HandleCurrencyChange | components/dashboard/steps/SecurityDeposit.tsx:52-56 | defines the currency handler: the selection is taken as it is |
| SecurityDeposit.NextDisabled | components/dashboard/steps/SecurityDeposit.tsx:46-56 | defines when Next is disabled: no amount or no currency |
| SecurityDeposit.Valid | components/dashboard/steps/SecurityDeposit.tsx:46-56 | defines the invariant: the amount only ever holds digits |
| EmailConfirmation.EmailLabelRule | components/dashboard/steps/EmailConfirmation.tsx:21 | the prompt names the landlord iff the role is 'Tenant', the tenant otherwise |
| EmailConfirmation.ChangeKeepsValid | components/dashboard/steps/EmailConfirmation.tsx:27-34 | the validity flag always matches the address, Next is enabled iff the address is valid, and a valid address contains '@' |
| EmailConfirmation.Mount | components/dashboard/steps/EmailConfirmation.tsx:27-34 | defines the first render: the flag is the address's validity |
| EmailConfirmation.HandleEmailChange | components/dashboard/steps/EmailConfirmation.tsx:27-34 | defines `handleEmailChange` followed by the validity effect. `EmailConfirmation.ChangeKeepsValid` states what follows |
| EmailConfirmation.NextDisabled | components/dashboard/steps/EmailConfirmation.tsx:27-34 | defines when Next is disabled: no address, or an invalid one |
| EmailConfirmation.EmailLabel | components/dashboard/steps/EmailConfirmation.tsx:21 | defines the prompt. `EmailConfirmation.EmailLabelRule` states its rule |
| EmailConfirmation.Valid | components/dashboard/steps/EmailConfirmation.tsx:27-34 | defines the invariant that the flag matches the address |
| Email.DotSeqWords | app/api/s3/upload/route.ts:91 | every `(P\.)+Q` match is a dot-join of at least two words, P-words then a Q-word |
| Email.WordsDotSeq | app/api/s3/upload/route.ts:91 | every such dot-join matches `(P\.)+Q` |
| Email.DotSeqChars | app/api/s3/upload/route.ts:91 | a character class covering the dot and the words covers the whole match |
| Email.DotSeqWellDotted | components/dashboard/steps/EmailConfirmation.tsx:24 | with dot-free non-empty words a match has no leading, trailing or doubled dot |
| Email.RouteEmailParts | app/api/s3/upload/route.ts:91 | every accepted address is `L@D1.….Dn.T`, with L over `[A-Za-z0-9_.-]`, n ≥ 1 labels over `[A-Za-z0-9_-]`, and a 2-to-4 character T |
| Email.RouteEmailOfParts | app/api/s3/upload/route.ts:91 | every address of that shape is accepted |
| Email.RouteDomainOfParts | app/api/s3/upload/route.ts:91 | labels and a short top-level label joined by dots form an accepted domain |
| Email.RouteEmailOneAt | app/api/s3/upload/route.ts:91 | an accepted address contains exactly one '@' |
| Email.RouteEmailExample | app/api/s3/route.ts:60 | "jo@x.io" is accepted |
| Email.DotAtomWellDotted | components/dashboard/steps/EmailConfirmation.tsx:24 | an unquoted local part has no leading, trailing or doubled dot |
| Email.DomainHasNoAt | components/dashboard/steps/EmailConfirmation.tsx:24 | neither domain form contains '@' |
| Email.ValidEmailSplitsAtLastAt | components/dashboard/steps/EmailConfirmation.tsx:24 | an accepted address is split at its last '@' |
| Email.OctetMayExceedByte | components/dashboard/steps/EmailConfirmation.tsx:24 | an address-literal group may be worth more than 255 |
| Email.ValidEmailOfParts | components/dashboard/steps/EmailConfirmation.tsx:24 | any local part and domain joined by '@' are accepted |
| Email.ValidEmailParts | components/dashboard/steps/EmailConfirmation.tsx:24 | every accepted address is a local part and a domain joined by '@' |
| Email.AddressLiteralUnchecked | components/dashboard/steps/EmailConfirmation.tsx:24 | any four groups of 1 to 3 digits form an accepted `[a.b.c.d]` domain |
| Email.QuotedLocalPartMayHoldAt | components/dashboard/steps/EmailConfirmation.tsx:24 | a quoted local part may itself contain '@' |
| Email.IsRouteEmail | app/api/s3/upload/route.ts:91 | defines the routes' regex `^[\w-\.]+@([\w-]+\.)+[\w-]{2,4}$`. `Email.RouteEmailParts` and `RouteEmailOfParts` characterise it in both directions |
| Email.IsValidEmail | components/dashboard/steps/EmailConfirmation.tsx:24 | defines the wizard's regex: a dot-atom or quoted local part, then a bracketed IPv4 literal or dotted labels with a top label of two letters or more. `Email.ValidEmailParts` and `ValidEmailOfParts` characterise it in both directions |
| JsText.TrimStart | app/api/s3/upload/route.ts:83-85 | a suffix of the input, with only white space skipped and no white space at its head |
| JsText.DigitPrefix | app/api/s3/upload/route.ts:83-85 | the longest prefix of digits of the radix |
| JsText.ParseInt | app/api/s3/upload/route.ts:83-85 | a number is produced only when the text holds a hexadecimal digit character. `JsText.ParseIntDecimal` and `ParseIntHex` give its value on every input of the forms white space, sign, digits, rest |
| JsText.HexPrefixed | app/api/s3/route.ts:34-38 | defines the "0x"/"0X" prefix that switches `parseInt` without a radix to base 16 |
| JsText.ReadUnsigned | app/api/s3/route.ts:34-38 | the unsigned part of `parseInt`: a number is produced only when a hexadecimal digit follows the optional "0x" prefix |
| JsText.ParseSigned | app/api/s3/route.ts:34-38 | `parseInt` after the white space: a number is produced only when the text holds a hexadecimal digit |
| JsText.Signed | app/api/s3/route.ts:34-38 | defines how the sign applies to the unsigned reading |
| JsText.TrimStartOf | app/api/s3/upload/route.ts:83-85 | white space in front of text that does not start with white space is skipped whole |
| JsText.DigitPrefixOf | app/api/s3/upload/route.ts:83-85 | a run of digits of the radix followed by a non-digit is read whole |
| JsText.DecimalDigits | app/api/s3/upload/route.ts:83-85 | decimal digit strings are base-10 digit strings |
| JsText.ParseIntAfterSpace | app/api/s3/upload/route.ts:83-85 | `parseInt` of white space followed by text is the signed reading of the text |
| JsText.ParseIntSigned | app/api/s3/upload/route.ts:83-85 | after the white space, an optional sign applied to the unsigned reading of what follows |
| JsText.ReadUnsignedDecimal | app/api/s3/upload/route.ts:83-85 | a decimal digit run followed by a non-digit, with no "0x" prefix when no radix is given, reads as its decimal value, or NaN when empty |
| JsText.ReadUnsignedHex | app/api/s3/route.ts:34-38 | "0x" then a hexadecimal run and a non-digit, with no radix, reads as the run's base-16 value, or NaN when empty |
| JsText.ParseIntDecimal | app/api/s3/upload/route.ts:83-85 | for any white space, optional sign, decimal digit run and non-digit rest, `parseInt` is NaN iff the run is empty and otherwise the signed decimal value. Without a radix this holds when the text is not "0x"-prefixed |
| JsText.ParseIntHex | app/api/s3/route.ts:34-38 | for any white space, optional sign, "0x"/"0X", hexadecimal run and rest, `parseInt` without a radix is the signed base-16 value of the run, or NaN when the run is empty |
| JsText.ParseIntOfDigits | app/api/s3/route.ts:34-38 | `parseInt` reads a non-empty decimal digit string (not "0x…") as its decimal value |
| JsText.ParseIntOfNegated | app/api/s3/route.ts:34-38 | a leading minus negates the value read |
| JsText.ParseIntOfIntToString | components/dashboard/steps/Review.tsx:89 | `parseInt(String(n))` is n, with or without radix 10 |
| JsText.NatToString | components/dashboard/steps/Review.tsx:89 | `String(n)` of a natural number is a digit string without a leading zero |
| JsText.IntToString | components/dashboard/steps/Review.tsx:89 | `String(n)` is never empty |
| JsText.NatToStringValue | components/dashboard/steps/Review.tsx:89 | the decimal value of `String(n)` is n |
| JsText.UpTo | app/api/s3/route.ts:120 | the text before the first separator |
| JsText.SplitSecond | app/api/s3/route.ts:120 | `split(sep)[1]` is undefined iff there is no separator, and it holds no separator |
| JsText.SplitSecondOf | app/api/s3/route.ts:120 | "a/b" splits to "b" |
| FileNames.ClampIndex | app/contest/page.tsx:99-100 | `slice` keeps an in-range index, counts a negative one from the end, and clamps to the length |
| FileNames.Slice | app/contest/page.tsx:99-100 | `s.slice(a, b)` is `s[a..b]` for in-range arguments and never longer than `s` |
| FileNames.LastIndexOf | app/contest/page.tsx:98 | -1 iff the character is absent; otherwise the position of its last occurrence |
| FileNames.Extension | app/contest/page.tsx:98-99 | a suffix of the name, empty or a '.' with no later '.' |
| FileNames.TruncateFileName | app/contest/page.tsx:96-101 | a name that fits is kept. A longer one ends in "..." and the extension |
| FileNames.TruncateFits | app/contest/page.tsx:96-101 | when the extension and "..." fit, the result is exactly maxLength characters: a prefix, "...", then the extension |
| FileNames.TruncateCanLengthen | app/contest/page.tsx:100 | ("a.abcdefghijklmnopq", 15) gives 34 characters, longer than the name |
| FileNames.TruncateOverflows | app/contest/page.tsx:100 | whenever the extension does not fit, the as-written result exceeds maxLength |
| FileNames.TruncateFileNameBounded | app/contest/page.tsx:96-101 | the corrected truncation: never longer than maxLength (for maxLength ≥ 3), and identical to the original whenever the extension fits |
| Dropzone.NewFiles | components/dashboard/steps/ImageUpload.tsx:68-70 | the survivors were dropped and have names not yet selected |
| Dropzone.NewFilesComplete | components/dashboard/steps/ImageUpload.tsx:68-70 | every dropped file with a new name survives |
| Dropzone.NewFilesAppend | components/dashboard/steps/ImageUpload.tsx:68-70 | the filter distributes over concatenation, so drop order is kept |
| Dropzone.NewFilesAllFresh | components/dashboard/steps/VideoUpload.tsx:110-112 | a drop whose names are all new survives whole, duplicates within it included |
| Dropzone.ErrorLines | components/dashboard/steps/ImageUpload.tsx:82 | one `name: message` line per error, in order |
| Dropzone.RejectionMessages | components/dashboard/steps/ImageUpload.tsx:81-83 | one line per (file, error) pair |
| Dropzone.RejectionMessagesAppend | components/dashboard/steps/ImageUpload.tsx:81-83 | the lines of a concatenation are the concatenated lines, so rejection order is kept |
| Dropzone.RejectionMessagesSingle | components/dashboard/steps/ImageUpload.tsx:81-83 | one rejected file gives its own error lines |
| Dropzone.SumDurationsNonNegative | components/dashboard/steps/Review.tsx:61-65 | non-negative durations sum to a non-negative total |
| Dropzone.SumDurationsAppend | components/dashboard/steps/Review.tsx:61-65 | the sum over a concatenation is the sum of the sums |
| Dropzone.FloorShift | components/dashboard/steps/Review.tsx:67-68 | the floor of a whole number plus x is that number plus the floor of x |
| Dropzone.CreditsNeededMessage | components/dashboard/steps/ImageUpload.tsx:75-76 | the credits message is never empty |
| Dropzone.CreditTotals | components/dashboard/steps/Review.tsx:58-65 | the loop's seconds are the summed durations and its credits are images plus seconds |
| Storage.Database.constructor | app/api/s3/upload/route.ts:98 | the tables as given |
| Storage.Database.Restore | app/api/s3/upload/route.ts:98 | a rolled-back transaction leaves every table as in the snapshot |
| Storage.Database.CreateRecord | app/api/s3/upload/route.ts:100-116 | the record is appended and its id is the old table length; nothing else changes |
| Storage.Database.Decrement | app/api/s3/upload/route.ts:119-126 | found iff the user exists; the balance then drops by the amount, possibly below zero; nothing else changes |
| Storage.Database.SetStatus | app/api/s3/upload/route.ts:133-141 | found iff the record exists and belongs to the user; only its status changes |
| Storage.Database.CreateFile | app/api/s3/upload/route.ts:147-158 | the row is appended; nothing else changes |
| Storage.ObjectStore.constructor | app/api/s3/route.ts:12-18 | the bucket's initial keys, no delete request yet |
| Storage.ObjectStore.Put | app/api/s3/route.ts:182-187 | the key joins the bucket |
| Storage.ObjectStore.Delete | app/api/s3/route.ts:200-205 | the request is logged; the key leaves the bucket unless the delete fails |
| Storage.ObjectStore.DeleteEach | app/api/s3/route.ts:197-211 | every key is requested in order, and exactly the keys whose delete does not fail are removed |

## Left out

- I/O and foreign services are not modelled themselves. This covers S3, Prisma, NextAuth and
  Supabase sessions, `fetch`, `XMLHttpRequest`, axios, toasts' durations, `console` output, object
  URLs and the `<video>` metadata load. Their outcomes are parameters.
- The backend behind the signed-URL and delete endpoints (`app/api/s3/signed-url/route.ts`,
  `app/api/s3/delete/route.ts`) is not part of this model. Those routes only forward requests.
- Floating point is not modelled:
  - file sizes in MB, `bytesToMB`, `toFixed`;
  - the `parseFloat` values of `totalImageSizeMB`, `totalVideoSizeMB` and `fileSize`; only
    whether `parseFloat` gives NaN is modelled, because validation depends on it;
  - browser rounding of durations, which are exact non-negative reals.
- The record columns for total image and video sizes and the file rows' `fileSize` column are
  not stored by the model.
- A video whose metadata never loads leaves its `getVideoDuration` promise pending forever, and
  a NaN or infinite duration is possible. Neither is modelled.
- `Promise.all` concurrency in the commit route's `deleteUploadedFiles` is modelled as "every key
  is attempted". The async interleavings of React effects with user events are not modelled; each
  handler runs to completion.
- Strings are sequences of code points. `length` in UTF-16 code units, which differs for
  characters outside the Basic Multilingual Plane, is not modelled.
- JsText.ParseInt: precision loss above 2^53 is not modelled. The value is an unbounded integer.
- A failing `req.formData()` in the legacy route (outside its `try`) and a failing `req.json()`
  on an error reply in the contest page are not modelled. A failing `req.json()` in the commit
  route is modelled as a 500 with nothing to delete.
- A text field that carries a file part is read as absent (`LegacyRoute.FormGet`). In the source
  it would be a `File` cast to string.
- A progress event with `total` 0 is skipped. In the source it would store NaN or Infinity.
- The TypeError text for a missing `signedUrls[i]` is a placeholder. Only its difference from the
  server's message matters.
- ContestPage.Contest.UploadFileToS3: requires the file's index to lie within the progress
  array. `onUpload` always sizes the array to the selection first, so the index always does.
- ImageUpload.ImageStep.OnDrop: requires loading to have finished, because the drop zone is only
  rendered after the loading spinner.
- VideoUpload.VideoStep.OnDrop: requires loading to have finished, for the same reason.
- `user.availableCredits` from `/api/user` is taken to be a natural number. An `undefined`
  balance is not modelled.
- SecurityDeposit's currency fetch, its loading state and its error text are rendering and I/O.
  Only the projection of the fetched items is modelled.
- Rendering is not modelled: class names, spinners, previews, the gallery redirect, and the
  Duration step's Next button, which is never disabled.
- The commented-out variants in `app/api/s3/route.ts` after line 211 are not modelled.
- The Prisma schema is not part of this model. The file rows' `type` column is taken to be an
  enum of IMAGE and VIDEO, so a descriptor with any other type makes `file.create` throw
  (`CommitRoute.UnknownTypeThrows`).
- LegacyRoute.LastStepFailureLeavesObjects: covers only forms whose image and video entries are
  all files. With a text entry the upload of that entry throws first, and
  `LegacyRoute.TextPartThrows` states that case.
- LegacyRoute.UploadFailureDeletesEarlier: covers only a failure at k with files before k, for
  the same reason.
- The upload of a text entry is modelled as a throw. In the source `file.stream` is undefined on
  a string, so the call throws a TypeError; its message is not modelled.

## Findings

| source | as written | input that shows it | evidently intended | confidence | as-written member | corrected member |
|---|---|---|---|---|---|---|
| app/contest/page.tsx:96-101 (same body at components/dashboard/steps/ImageUpload.tsx:100-105, VideoUpload.tsx:163-168, Review.tsx:34-39) | when the extension plus "..." is longer than `maxLength`, `name.slice(0, maxLength - ext.length - 3)` gets a negative end, which `slice` counts from the end of the name | name "a.abcdefghijklmnopq" (19 characters), maxLength 15: the result has 34 characters | a truncated name is never longer than `maxLength` | high (not executed) | FileNames.TruncateCanLengthen | FileNames.TruncateFileNameBounded |
