/**
 * POST /api/s3 (lines 1-211 of its file): the older route that receives the files themselves as
 * multipart form data. Inside one Prisma transaction it creates the record, charges the user,
 * marks the record uploaded, then uploads every image and then every video to S3, pushing each
 * upload's result onto `uploadedFiles` before writing that file's row. When anything throws, it
 * deletes the uploaded objects, but only when fewer results were pushed than files were sent.
 */
module LegacyRoute {
  import opened Wrappers
  import opened JsText
  import opened Email
  import opened Dropzone
  import opened Storage
  import opened Http

  /** A FormData entry: a text value or a file part. */
  datatype FormValue = Text(text: string) | Blob(file: LocalFile)
  datatype FormEntry = FormEntry(name: string, value: FormValue)

  predicate HasEntry(form: seq<FormEntry>, name: string) {
    exists i | 0 <= i < |form| :: form[i].name == name
  }

  /** `formData.get(name) as string`: the first entry under the name; null (None) when there is
      none. A file part in that place is treated as missing. */
  function FormGet(form: seq<FormEntry>, name: string): (r: Option<string>)
    ensures !HasEntry(form, name) ==> r.None?
    ensures r.Some? ==> FormEntry(name, Text(r.value)) in form
  {
    if |form| == 0 then None
    else if form[0].name == name then (if form[0].value.Text? then Some(form[0].value.text) else None)
    else FormGet(form[1..], name)
  }

  /** Appending entries never changes what `get` returns for a name already present. */
  lemma {:induction false} FormGetAppend(a: seq<FormEntry>, b: seq<FormEntry>, name: string)
    ensures FormGet(a + b, name) == if HasEntry(a, name) then FormGet(a, name) else FormGet(b, name)
    decreases |a|
  {
    if |a| == 0 {
      assert a + b == b;
    } else {
      assert (a + b)[1..] == a[1..] + b;
      FormGetAppend(a[1..], b, name);
      if a[0].name != name {
        assert HasEntry(a, name) <==> HasEntry(a[1..], name) by {
          if HasEntry(a, name) {
            var i :| 0 <= i < |a| && a[i].name == name;
            assert a[1..][i - 1].name == name;
          }
          if HasEntry(a[1..], name) {
            var i :| 0 <= i < |a[1..]| && a[1..][i].name == name;
            assert a[i + 1].name == name;
          }
        }
      }
    }
  }

  /** `formData.getAll(name) as File[]`: every entry under the name, in order. The cast checks
      nothing, so a text entry under the name comes back as well as the file parts. */
  function FormFiles(form: seq<FormEntry>, name: string): (r: seq<FormValue>)
    ensures |r| <= |form|
    ensures forall v :: v in r <==> FormEntry(name, v) in form
  {
    if |form| == 0 then []
    else
      var rest := FormFiles(form[1..], name);
      assert forall e :: e in form <==> e == form[0] || e in form[1..];
      if form[0].name == name then [form[0].value] + rest else rest
  }

  /** A list of files as file parts. */
  function Blobs(files: seq<LocalFile>): (r: seq<FormValue>)
    ensures |r| == |files| && forall i | 0 <= i < |files| :: r[i] == Blob(files[i])
  {
    seq(|files|, i requires 0 <= i < |files| => Blob(files[i]))
  }

  lemma {:induction false} FormFilesAppend(a: seq<FormEntry>, b: seq<FormEntry>, name: string)
    ensures FormFiles(a + b, name) == FormFiles(a, name) + FormFiles(b, name)
    decreases |a|
  {
    if |a| == 0 {
      assert a + b == b;
    } else {
      assert (a + b)[1..] == a[1..] + b;
      FormFilesAppend(a[1..], b, name);
    }
  }

  /** The fields the route reads from the form. Numbers go through parseInt without a radix; the
      image and video lists hold whatever `getAll` returned. */
  datatype LegacyInput = LegacyInput(
    role: Option<string>,
    address: Option<string>,
    deposit: Option<int>,
    currency: Option<string>,
    email: Option<string>,
    credits: Option<int>,
    seconds: Option<int>,
    images: seq<FormValue>,
    videos: seq<FormValue>)

  function ReadForm(form: seq<FormEntry>): LegacyInput {
    LegacyInput(
      FormGet(form, "role"),
      FormGet(form, "rentalAddress"),
      ParseIntField(FormGet(form, "securityDeposit"), Unspecified),
      FormGet(form, "currency"),
      FormGet(form, "otherPartyEmail"),
      ParseIntField(FormGet(form, "totalCredits"), Unspecified),
      ParseIntField(FormGet(form, "totalVideoSeconds"), Unspecified),
      FormFiles(form, "image"),
      FormFiles(form, "video"))
  }

  /** JavaScript truthiness of a parsed number: NaN (None) and 0 are falsy. */
  predicate NumberTruthy(n: Option<int>) {
    n.Some? && n.value != 0
  }

  /** The validation condition holds none of its rejecting tests. */
  predicate Passes(x: LegacyInput) {
    && Truthy(x.role) && Truthy(x.address) && NumberTruthy(x.deposit) && Truthy(x.currency)
    && Truthy(x.email) && IsRouteEmail(x.email.value) && NumberTruthy(x.credits)
    && |x.images| > 0
  }

  const NotLoggedIn := Response(401, Failure("You must be logged in."))
  const InvalidInput := Response(400, Failure("Invalid input"))
  const UploadingFailed := Response(500, Failure("Uploading failed, please try again."))
  const Done := Response(200, StatusOk)

  /** An entry to upload and the kind of row it gets. */
  datatype Part = Part(value: FormValue, kind: FileKind)

  /** The files in the order the route handles them: every image, then every video. */
  function Parts(x: LegacyInput): (ps: seq<Part>)
    ensures |ps| == |x.images| + |x.videos|
    ensures forall i | 0 <= i < |x.images| :: ps[i] == Part(x.images[i], Image)
    ensures forall j | 0 <= j < |x.videos| :: ps[|x.images| + j] == Part(x.videos[j], Video)
  {
    seq(|x.images|, i requires 0 <= i < |x.images| => Part(x.images[i], Image))
      + seq(|x.videos|, j requires 0 <= j < |x.videos| => Part(x.videos[j], Video))
  }

  /** Every entry under `image` and `video` is a file part. */
  predicate AllFiles(x: LegacyInput) {
    && (forall i | 0 <= i < |x.images| :: x.images[i].Blob?)
    && (forall j | 0 <= j < |x.videos| :: x.videos[j].Blob?)
  }

  /** The bucket and region from the environment. */
  datatype S3Env = S3Env(bucket: string, region: string)

  datatype UploadResult = UploadResult(bucket: string, key: Key, location: string)

  function Folder(kind: FileKind): string {
    match kind
    case Image => "images"
    case Video => "videos"
  }

  /** The object key `${folder}/${uuid}` of a part. */
  function KeyFor(kind: FileKind, id: string): Key {
    Folder(kind) + "/" + id
  }

  /** A template literal: its pieces joined in order. */
  function Template(pieces: seq<string>): string {
    if |pieces| == 0 then "" else Template(pieces[..|pieces| - 1]) + pieces[|pieces| - 1]
  }

  /** The object's public URL on the bucket's virtual-hosted endpoint. */
  function ObjectUrl(env: S3Env, key: Key): string {
    Template(["https://", env.bucket, ".s3.", env.region, ".amazonaws.com/", key])
  }

  /** `uploadFile`'s result: the key `folder/uuid` and the object's public URL. */
  function UploadFile(env: S3Env, folder: string, id: string): UploadResult {
    var key := folder + "/" + id;
    UploadResult(env.bucket, key, ObjectUrl(env, key))
  }

  /** The result of every upload, the i-th with the i-th generated uuid. */
  function Results(env: S3Env, parts: seq<Part>, uuid: nat -> string): (rs: seq<UploadResult>)
    ensures |rs| == |parts|
    ensures forall i | 0 <= i < |parts| :: rs[i] == UploadFile(env, Folder(parts[i].kind), uuid(i))
  {
    seq(|parts|, i requires 0 <= i < |parts| => UploadFile(env, Folder(parts[i].kind), uuid(i)))
  }

  function ResultKeys(rs: seq<UploadResult>): (keys: seq<Key>)
    ensures |keys| == |rs| && forall i | 0 <= i < |rs| :: keys[i] == rs[i].key
  {
    seq(|rs|, i requires 0 <= i < |rs| => rs[i].key)
  }

  /** The row `file.create` writes for an uploaded file part. */
  function RowFor(recordId: nat, p: Part, r: UploadResult): FileRow
    requires p.value.Blob?
  {
    var f := p.value.file;
    FileRow(recordId, f.name, SplitSecond(f.mimeType, '/'), r.key, r.location, p.kind, FileUploadedToS3)
  }

  /** The rows of the first m parts. */
  function RowsFor(recordId: nat, parts: seq<Part>, rs: seq<UploadResult>, m: nat): (rows: seq<FileRow>)
    requires m <= |parts| == |rs| && FilesBefore(parts, m)
    ensures |rows| == m && forall i | 0 <= i < m :: rows[i] == RowFor(recordId, parts[i], rs[i])
  {
    seq(m, i requires 0 <= i < m => RowFor(recordId, parts[i], rs[i]))
  }

  function LegacyRecord(user: UserId, x: LegacyInput): Record
    requires Passes(x)
  {
    Record(user, x.role.value, x.address.value, x.deposit.value, x.currency.value, x.email.value,
      x.credits.value, x.seconds, None, |x.images|, |x.videos|, Created)
  }

  /** An injected fault on one of the three calls before the uploads. */
  predicate Early(fault: Fault) {
    fault == FailCreateRecord || fault == FailDecrement || fault == FailSetStatus
  }

  /** A throw before the first upload: an injected fault on the first three calls, a missing user,
      or a balance the charge takes below zero. */
  predicate EarlyThrow(t: Tables, user: UserId, x: LegacyInput, fault: Fault)
    requires Passes(x)
  {
    Early(fault) || user !in t.credits || t.credits[user] - x.credits.value < 0
  }

  /** Parts 0..m-1 are all file parts. */
  predicate FilesBefore(parts: seq<Part>, m: nat) {
    forall i | 0 <= i < m && i < |parts| :: parts[i].value.Blob?
  }

  /** The position of the first text entry among the parts, or the number of parts when there is
      none: `uploadFile` calls `file.stream()` first, which throws on a string. */
  function FirstText(parts: seq<Part>): (k: nat)
    ensures k <= |parts| && FilesBefore(parts, k)
    ensures k < |parts| ==> parts[k].value.Text?
    decreases |parts|
  {
    if |parts| == 0 || parts[0].value.Text? then 0
    else
      var k := 1 + FirstText(parts[1..]);
      assert forall i | 1 <= i < k :: parts[i] == parts[1..][i - 1];
      k
  }

  /** The call that throws first, counting the upload of the first text entry: an injected fault
      the route reaches before that upload, otherwise that upload. */
  function Effective(parts: seq<Part>, fault: Fault): Fault {
    var k := FirstText(parts);
    if k == |parts| || Early(fault) then fault
    else if (fault.FailUpload? || fault.FailCreateFile?) && fault.index < k then fault
    else FailUpload(k)
  }

  predicate Throws(t: Tables, user: UserId, x: LegacyInput, fault: Fault)
    requires Passes(x)
  {
    var n, f := |x.images| + |x.videos|, Effective(Parts(x), fault);
    || EarlyThrow(t, user, x, fault)
    || (f.FailUpload? && f.index < n)
    || (f.FailCreateFile? && f.index < n)
    || f == FailCommit
  }

  /** How many upload results are on `uploadedFiles` when the transaction ends: none after an
      early throw, k when upload k throws, k + 1 when the row of file k fails, all otherwise. */
  function Pushed(t: Tables, user: UserId, x: LegacyInput, fault: Fault): (p: nat)
    requires Passes(x)
    ensures p <= |x.images| + |x.videos|
  {
    var n, f := |x.images| + |x.videos|, Effective(Parts(x), fault);
    if EarlyThrow(t, user, x, fault) then 0
    else if f.FailUpload? && f.index < n then f.index
    else if f.FailCreateFile? && f.index < n then f.index + 1
    else n
  }

  function Committed(t: Tables, user: UserId, x: LegacyInput, env: S3Env, uuid: nat -> string): Tables
    requires Passes(x) && user in t.credits && FilesBefore(Parts(x), |Parts(x)|)
  {
    var parts := Parts(x);
    Tables(
      t.credits[user := t.credits[user] - x.credits.value],
      t.records + [LegacyRecord(user, x).(status := UploadedToS3)],
      t.files + RowsFor(|t.records|, parts, Results(env, parts, uuid), |parts|))
  }

  /** The response, the tables afterwards, the keys uploaded, and the keys sent for deletion. */
  datatype Outcome = Outcome(response: Response, tables: Tables, uploaded: seq<Key>, deleted: seq<Key>)

  /** The route after the session check, on the fields it read from the form. */
  function Run(t: Tables, x: LegacyInput, user: UserId, env: S3Env, uuid: nat -> string, fault: Fault): Outcome {
    if !Passes(x) then Outcome(InvalidInput, t, [], [])
    else
      var keys := ResultKeys(Results(env, Parts(x), uuid));
      var p := Pushed(t, user, x, fault);
      if Throws(t, user, x, fault) then
        Outcome(UploadingFailed, t, keys[..p], if p < |keys| then keys[..p] else [])
      else Outcome(Done, Committed(t, user, x, env, uuid), keys, [])
  }

  /** The route as a whole; `session` is the Supabase user id when there is a session. */
  function Handle(t: Tables, form: seq<FormEntry>, session: Option<UserId>, env: S3Env,
                  uuid: nat -> string, fault: Fault): Outcome
  {
    if session.None? then Outcome(NotLoggedIn, t, [], [])
    else Run(t, ReadForm(form), session.value, env, uuid, fault)
  }

  /** Where an upload loop over parts lo..hi-1 stops: at k when upload k throws, after k when
      the row of file k fails, at hi otherwise. */
  function StopAt(fault: Fault, lo: nat, hi: nat): (s: nat)
    requires lo <= hi
    ensures lo <= s <= hi
  {
    if fault.FailUpload? && lo <= fault.index < hi then fault.index
    else if fault.FailCreateFile? && lo <= fault.index < hi then fault.index + 1
    else hi
  }

  predicate LoopThrows(fault: Fault, lo: nat, hi: nat) {
    (fault.FailUpload? || fault.FailCreateFile?) && lo <= fault.index < hi
  }

  /** Nothing has thrown before part k: parts 0..k-1 are files, no early fault, and no injected
      upload or row fault before k. */
  predicate NotBefore(parts: seq<Part>, fault: Fault, k: nat) {
    && FilesBefore(parts, k) && !Early(fault)
    && !((fault.FailUpload? || fault.FailCreateFile?) && fault.index < k)
  }

  /** Before part k nothing throws, so the first throw, if any, is at k or later. */
  lemma EffectiveNotBefore(parts: seq<Part>, fault: Fault, k: nat)
    requires k <= |parts| && NotBefore(parts, fault, k)
    ensures FirstText(parts) >= k
    ensures var f := Effective(parts, fault); (f.FailUpload? || f.FailCreateFile?) ==> f.index >= k
  {
  }

  /** With no text entry the injected fault is the one that throws. */
  lemma EffectiveAllFiles(parts: seq<Part>, fault: Fault)
    requires FilesBefore(parts, |parts|)
    ensures Effective(parts, fault) == fault
  {
    EffectiveNotBefore(parts, NoFault, |parts|);
  }

  /** Where the loop stands after part k: the upload of a text entry or an injected upload fault
      ends it at k, a row fault after k; otherwise nothing has thrown through k. */
  lemma LoopStep(parts: seq<Part>, fault: Fault, lo: nat, k: nat, hi: nat)
    requires lo <= k < hi <= |parts| && NotBefore(parts, fault, k)
    ensures !LoopThrows(Effective(parts, fault), lo, k)
    ensures fault == FailUpload(k) || parts[k].value.Text? ==>
      Effective(parts, fault) == FailUpload(k) && LoopThrows(FailUpload(k), lo, hi) && StopAt(FailUpload(k), lo, hi) == k
    ensures fault == FailCreateFile(k) && parts[k].value.Blob? ==>
      Effective(parts, fault) == fault && LoopThrows(fault, lo, hi) && StopAt(fault, lo, hi) == k + 1
    ensures fault != FailUpload(k) && fault != FailCreateFile(k) && parts[k].value.Blob? ==>
      NotBefore(parts, fault, k + 1)
  {
    EffectiveNotBefore(parts, fault, k);
    if parts[k].value.Text? {
      assert FirstText(parts) == k;
    }
  }

  lemma ResultsSnoc(rs: seq<UploadResult>, k: nat)
    requires k < |rs|
    ensures rs[..k + 1] == rs[..k] + [rs[k]]
  {
  }

  /** How the transaction's throw splits over its stages once the charge has gone through: the
      image loop, the video loop, the commit. */
  lemma ThrowStages(t: Tables, user: UserId, x: LegacyInput, fault: Fault)
    requires Passes(x) && !EarlyThrow(t, user, x, fault)
    ensures var f, n, m := Effective(Parts(x), fault), |x.images|, |x.images| + |x.videos|;
      && (LoopThrows(f, 0, n) ==> Throws(t, user, x, fault) && Pushed(t, user, x, fault) == StopAt(f, 0, n))
      && (!LoopThrows(f, 0, n) && LoopThrows(f, n, m) ==>
            Throws(t, user, x, fault) && Pushed(t, user, x, fault) == StopAt(f, n, m))
      && (!LoopThrows(f, 0, n) && !LoopThrows(f, n, m) ==>
            Pushed(t, user, x, fault) == m && (Throws(t, user, x, fault) <==> f == FailCommit))
  {
  }

  /** The first three calls of the transaction: create the record, decrement the balance (the
      transaction throws when the user is missing or the balance would go negative), set the
      status. Returns the new record's id. */
  method Charge(db: Database, user: UserId, x: LegacyInput, fault: Fault) returns (ok: bool, id: nat)
    requires Passes(x)
    modifies db
    ensures ok <==> !EarlyThrow(old(db.State()), user, x, fault)
    ensures ok ==> id == |old(db.records)|
    ensures ok ==> db.credits == old(db.credits)[user := old(db.credits)[user] - x.credits.value]
    ensures ok ==> db.records == old(db.records) + [LegacyRecord(user, x).(status := UploadedToS3)]
    ensures ok ==> db.files == old(db.files)
  {
    ok := false;
    id := 0;
    if fault == FailCreateRecord {
      return;
    }
    id := db.CreateRecord(LegacyRecord(user, x));
    if fault == FailDecrement {
      return;
    }
    var found, balance := db.Decrement(user, x.credits.value);
    if !found || balance < 0 {
      return;
    }
    if fault == FailSetStatus {
      return;
    }
    var updated := db.SetStatus(id, user, UploadedToS3);
    ok := true;
  }

  /** One of the route's two upload loops (images, then videos; they differ only in the folder
      and the row's kind, which `parts` carries): for each part, upload it, push the result,
      write its row. */
  method UploadLoop(db: Database, store: ObjectStore, id: nat, parts: seq<Part>, lo: nat, hi: nat,
                    env: S3Env, uuid: nat -> string, fault: Fault, pushedBefore: seq<UploadResult>,
                    ghost rows: seq<FileRow>, ghost objects: set<Key>)
    returns (ok: bool, pushed: seq<UploadResult>)
    requires lo <= hi <= |parts| && NotBefore(parts, fault, lo)
    requires pushedBefore == Results(env, parts, uuid)[..lo]
    requires db.files == rows + RowsFor(id, parts, Results(env, parts, uuid), lo)
    requires store.objects == objects + KeySet(ResultKeys(pushedBefore))
    modifies db, store
    ensures ok <==> !LoopThrows(Effective(parts, fault), lo, hi)
    ensures ok ==> NotBefore(parts, fault, hi)
    ensures db.credits == old(db.credits) && db.records == old(db.records)
    ensures pushed == Results(env, parts, uuid)[..StopAt(Effective(parts, fault), lo, hi)]
    ensures ok ==> db.files == rows + RowsFor(id, parts, Results(env, parts, uuid), hi)
    ensures store.objects == objects + KeySet(ResultKeys(pushed))
    ensures store.deleteLog == old(store.deleteLog)
  {
    ghost var rs := Results(env, parts, uuid);
    pushed := pushedBefore;
    var k := lo;
    while k < hi
      invariant lo <= k <= hi && NotBefore(parts, fault, k)
      invariant pushed == rs[..k]
      invariant db.files == rows + RowsFor(id, parts, rs, k)
      invariant store.objects == objects + KeySet(ResultKeys(pushed))
      invariant store.deleteLog == old(store.deleteLog)
      invariant db.credits == old(db.credits) && db.records == old(db.records)
    {
      ok, pushed := UploadPart(db, store, id, parts, k, env, uuid, fault, pushed, rows, objects, lo, hi);
      if !ok {
        return;
      }
      k := k + 1;
    }
    LoopEnd(parts, fault, lo, hi);
    ok := true;
  }

  /** A loop whose parts are all files and none of whose faults lies in its range runs to the
      end without a throw. */
  lemma LoopEnd(parts: seq<Part>, fault: Fault, lo: nat, hi: nat)
    requires lo <= hi <= |parts| && NotBefore(parts, fault, hi)
    ensures !LoopThrows(Effective(parts, fault), lo, hi) && StopAt(Effective(parts, fault), lo, hi) == hi
  {
    EffectiveNotBefore(parts, fault, hi);
  }

  /** One turn of an upload loop, for part k: `uploadFile` (which throws on a text entry), the
      push, and `file.create`. */
  method UploadPart(db: Database, store: ObjectStore, id: nat, parts: seq<Part>, k: nat,
                    env: S3Env, uuid: nat -> string, fault: Fault, pushed: seq<UploadResult>,
                    ghost rows: seq<FileRow>, ghost objects: set<Key>, ghost lo: nat, ghost hi: nat)
    returns (ok: bool, pushedAfter: seq<UploadResult>)
    requires lo <= k < hi <= |parts| && NotBefore(parts, fault, k)
    requires pushed == Results(env, parts, uuid)[..k]
    requires db.files == rows + RowsFor(id, parts, Results(env, parts, uuid), k)
    requires store.objects == objects + KeySet(ResultKeys(pushed))
    modifies db, store
    ensures !ok ==> LoopThrows(Effective(parts, fault), lo, hi)
    ensures !ok ==> pushedAfter == Results(env, parts, uuid)[..StopAt(Effective(parts, fault), lo, hi)]
    ensures ok ==> NotBefore(parts, fault, k + 1) && pushedAfter == Results(env, parts, uuid)[..k + 1]
    ensures ok ==> db.files == rows + RowsFor(id, parts, Results(env, parts, uuid), k + 1)
    ensures db.credits == old(db.credits) && db.records == old(db.records)
    ensures store.objects == objects + KeySet(ResultKeys(pushedAfter))
    ensures store.deleteLog == old(store.deleteLog)
  {
    ghost var rs := Results(env, parts, uuid);
    LoopStep(parts, fault, lo, k, hi);
    if fault == FailUpload(k) || parts[k].value.Text? {
      return false, pushed;
    }
    var result := UploadFile(env, Folder(parts[k].kind), uuid(k));
    ResultsSnoc(rs, k);
    pushedAfter := PutAndPush(store, pushed, result, objects);
    if fault == FailCreateFile(k) {
      return false, pushedAfter;
    }
    WriteRow(db, id, parts[k], result, parts, rs, k, rows);
    ok := true;
  }

  /** The transaction body, call by call: it returns false when a call throws, together with
      the upload results pushed by then. */
  method Transaction(db: Database, store: ObjectStore, user: UserId, x: LegacyInput, env: S3Env,
                     uuid: nat -> string, fault: Fault) returns (ok: bool, uploadedFiles: seq<UploadResult>)
    requires Passes(x)
    modifies db, store
    ensures ok <==> !Throws(old(db.State()), user, x, fault)
    ensures uploadedFiles == Results(env, Parts(x), uuid)[..Pushed(old(db.State()), user, x, fault)]
    ensures ok ==> db.State() == Committed(old(db.State()), user, x, env, uuid)
    ensures store.objects == old(store.objects) + KeySet(ResultKeys(uploadedFiles))
    ensures store.deleteLog == old(store.deleteLog)
  {
    ghost var t := db.State();
    var parts := Parts(x);
    var n := |x.images|;
    uploadedFiles := [];
    assert KeySet(ResultKeys(uploadedFiles)) == {};
    var charged, id := Charge(db, user, x, fault);
    if !charged {
      return false, uploadedFiles;
    }
    assert RowsFor(id, parts, Results(env, parts, uuid), 0) == [];
    ThrowStages(t, user, x, fault);
    ok, uploadedFiles := UploadLoop(db, store, id, parts, 0, n, env, uuid, fault, uploadedFiles,
                                    t.files, old(store.objects));
    if !ok {
      return;
    }
    ok, uploadedFiles := UploadLoop(db, store, id, parts, n, |parts|, env, uuid, fault, uploadedFiles,
                                    t.files, old(store.objects));
    if !ok {
      return;
    }
    EffectiveAllFiles(parts, fault);
    if fault == FailCommit {
      return false, uploadedFiles;
    }
  }

  /** `s3.send` of the upload, then `uploadedFiles.push(result)`. */
  method PutAndPush(store: ObjectStore, pushed: seq<UploadResult>, result: UploadResult, ghost objects: set<Key>)
    returns (pushedAfter: seq<UploadResult>)
    requires store.objects == objects + KeySet(ResultKeys(pushed))
    modifies store
    ensures pushedAfter == pushed + [result]
    ensures store.objects == objects + KeySet(ResultKeys(pushedAfter))
    ensures store.deleteLog == old(store.deleteLog)
  {
    store.Put(result.key);
    PushStep(pushed, result);
    pushedAfter := pushed + [result];
  }

  /** `file.create` for part k. */
  method WriteRow(db: Database, id: nat, part: Part, result: UploadResult,
                  ghost parts: seq<Part>, ghost rs: seq<UploadResult>, ghost k: nat, ghost rows: seq<FileRow>)
    requires k < |parts| == |rs| && parts[k] == part && rs[k] == result
    requires FilesBefore(parts, k + 1)
    requires db.files == rows + RowsFor(id, parts, rs, k)
    modifies db
    ensures db.files == rows + RowsFor(id, parts, rs, k + 1)
    ensures db.credits == old(db.credits) && db.records == old(db.records)
  {
    db.CreateFile(RowFor(id, part, result));
    RowsForStep(id, parts, rs, k);
  }

  lemma RowsForStep(recordId: nat, parts: seq<Part>, rs: seq<UploadResult>, m: nat)
    requires m < |parts| == |rs| && FilesBefore(parts, m + 1)
    ensures RowsFor(recordId, parts, rs, m + 1) == RowsFor(recordId, parts, rs, m) + [RowFor(recordId, parts[m], rs[m])]
  {
    var a, b := RowsFor(recordId, parts, rs, m + 1), RowsFor(recordId, parts, rs, m);
    assert forall i | 0 <= i < m :: a[i] == b[i];
  }

  /** Pushing one result adds its key. */
  lemma PushStep(pushed: seq<UploadResult>, r: UploadResult)
    ensures ResultKeys(pushed + [r]) == ResultKeys(pushed) + [r.key]
    ensures KeySet(ResultKeys(pushed + [r])) == KeySet(ResultKeys(pushed)) + {r.key}
  {
    assert ResultKeys(pushed + [r]) == ResultKeys(pushed) + [r.key];
    KeySetAppend(ResultKeys(pushed), r.key);
  }

  /** `deleteFiles`: a DeleteObject per uploaded file, in order; a failure is logged and the loop
      goes on. */
  method DeleteFiles(store: ObjectStore, files: seq<UploadResult>, failing: set<Key>)
    modifies store
    ensures store.deleteLog == old(store.deleteLog) + ResultKeys(files)
    ensures store.objects == Surviving(old(store.objects), ResultKeys(files), failing)
  {
    store.DeleteEach(ResultKeys(files), failing);
  }

  /** The handler: read the form, check the session, then validate and run. */
  method Post(db: Database, store: ObjectStore, form: seq<FormEntry>, session: Option<UserId>,
              env: S3Env, uuid: nat -> string, fault: Fault, failing: set<Key>) returns (response: Response)
    modifies db, store
    ensures var o := Handle(old(db.State()), form, session, env, uuid, fault);
      && response == o.response && db.State() == o.tables
      && store.deleteLog == old(store.deleteLog) + o.deleted
      && store.objects == Surviving(old(store.objects) + KeySet(o.uploaded), o.deleted, failing)
  {
    var x := ReadForm(form);
    if session.None? {
      NothingSurvivesUnattempted(store.objects, failing);
      return NotLoggedIn;
    }
    response := Execute(db, store, x, session.value, env, uuid, fault, failing);
  }

  /** Everything after the session check: validate, run the transaction (a snapshot restored on a
      throw), and clean up S3 when fewer results were pushed than files sent. */
  method Execute(db: Database, store: ObjectStore, x: LegacyInput, user: UserId,
                 env: S3Env, uuid: nat -> string, fault: Fault, failing: set<Key>) returns (response: Response)
    modifies db, store
    ensures var o := Run(old(db.State()), x, user, env, uuid, fault);
      && response == o.response && db.State() == o.tables
      && store.deleteLog == old(store.deleteLog) + o.deleted
      && store.objects == Surviving(old(store.objects) + KeySet(o.uploaded), o.deleted, failing)
  {
    ghost var t := db.State();
    NothingSurvivesUnattempted(store.objects, failing);
    if !Passes(x) {
      return InvalidInput;
    }
    var snapshot := db.State();
    var ok, uploadedFiles := Transaction(db, store, user, x, env, uuid, fault);
    ResultKeysPrefix(Results(env, Parts(x), uuid), Pushed(t, user, x, fault));
    if ok {
      NothingSurvivesUnattempted(store.objects, failing);
      return Done;
    }
    db.Restore(snapshot);
    if |uploadedFiles| < |x.images| + |x.videos| {
      DeleteFiles(store, uploadedFiles, failing);
    } else {
      NothingSurvivesUnattempted(store.objects, failing);
    }
    return UploadingFailed;
  }

  lemma ResultKeysPrefix(rs: seq<UploadResult>, p: nat)
    requires p <= |rs|
    ensures ResultKeys(rs[..p]) == ResultKeys(rs)[..p]
  {
  }

  lemma NothingSurvivesUnattempted(objects: set<Key>, failing: set<Key>)
    ensures Surviving(objects, [], failing) == objects
    ensures Surviving(objects + KeySet([]), [], failing) == objects
  {
    assert KeySet([]) == {};
  }

  /** Without a session the route answers 401 before it reads anything else. */
  lemma NoSessionFirst(t: Tables, form: seq<FormEntry>, env: S3Env, uuid: nat -> string, fault: Fault)
    ensures Handle(t, form, None, env, uuid, fault) == Outcome(NotLoggedIn, t, [], [])
  {
  }

  /** A deposit or a credit count that parses to NaN or to 0, or no image at all, is refused with
      400 and nothing is touched. */
  lemma FalsyFieldRejected(t: Tables, x: LegacyInput, user: UserId, env: S3Env, uuid: nat -> string, fault: Fault)
    requires !NumberTruthy(x.deposit) || !NumberTruthy(x.credits) || |x.images| == 0
    ensures Run(t, x, user, env, uuid, fault) == Outcome(InvalidInput, t, [], [])
  {
  }

  /** Videos are optional: the validation never looks at them. */
  lemma VideosOptional(x: LegacyInput)
    ensures Passes(x) <==> Passes(x.(videos := []))
  {
  }

  /** The generated keys are distinct whenever the uuids are: images and videos live under
      different folders, and within a folder the uuid tells them apart. */
  lemma KeysDistinct(env: S3Env, x: LegacyInput, uuid: nat -> string)
    requires forall i, j :: i != j ==> uuid(i) != uuid(j)
    ensures var keys := ResultKeys(Results(env, Parts(x), uuid));
      forall i, j | 0 <= i < j < |keys| :: keys[i] != keys[j]
  {
    var parts := Parts(x);
    var keys := ResultKeys(Results(env, parts, uuid));
    forall i, j | 0 <= i < j < |keys|
      ensures keys[i] != keys[j]
    {
      var a, b := Folder(parts[i].kind), Folder(parts[j].kind);
      assert keys[i] == a + "/" + uuid(i) && keys[j] == b + "/" + uuid(j);
      if a == b {
        assert keys[i][7..] == uuid(i) && keys[j][7..] == uuid(j);
      } else {
        assert keys[i][0] != keys[j][0];
      }
    }
  }

  /** The row of file k after a commit. */
  lemma CommittedRow(t: Tables, x: LegacyInput, user: UserId, env: S3Env, uuid: nat -> string, k: nat)
    requires Passes(x) && user in t.credits && FilesBefore(Parts(x), |Parts(x)|) && k < |x.images| + |x.videos|
    ensures var p := Parts(x)[k];
      && p.value.Blob?
      && RowAt(Committed(t, user, x, env, uuid).files, |t.files| + k, |t.records|, p.value.file.name, p.kind, KeyFor(p.kind, uuid(k)))
  {
    var parts := Parts(x);
    var rs := Results(env, parts, uuid);
    var rows := RowsFor(|t.records|, parts, rs, |parts|);
    var files := Committed(t, user, x, env, uuid).files;
    assert files == t.files + rows;
    assert files[|t.files| + k] == rows[k];
    UploadKey(env, parts[k].kind, uuid(k));
  }

  lemma UploadKey(env: S3Env, kind: FileKind, id: string)
    ensures UploadFile(env, Folder(kind), id).key == KeyFor(kind, id)
  {
  }

  /** A run that does not throw met no text entry: every part is a file. */
  lemma NoThrowAllFiles(t: Tables, x: LegacyInput, user: UserId, fault: Fault)
    requires Passes(x) && !Throws(t, user, x, fault)
    ensures FilesBefore(Parts(x), |Parts(x)|) && Effective(Parts(x), fault) == fault
  {
    EffectiveNotBefore(Parts(x), fault, 0);
  }

  /** On success: the user is charged the credits and one record is appended, already marked
      uploaded and counting the images and videos; every key was uploaded and none deleted. */
  lemma SuccessCharges(t: Tables, x: LegacyInput, user: UserId, env: S3Env, uuid: nat -> string, fault: Fault)
    requires Passes(x) && !Throws(t, user, x, fault)
    ensures var o := Run(t, x, user, env, uuid, fault);
      && o.response == Done && o.deleted == []
      && o.uploaded == ResultKeys(Results(env, Parts(x), uuid))
      && user in t.credits && x.credits.value <= t.credits[user]
      && o.tables.credits == t.credits[user := t.credits[user] - x.credits.value]
      && |o.tables.records| == |t.records| + 1 && o.tables.records[..|t.records|] == t.records
      && o.tables.records[|t.records|].userId == user
      && o.tables.records[|t.records|].numImages == |x.images|
      && o.tables.records[|t.records|].numVideos == |x.videos|
      && o.tables.records[|t.records|].status == UploadedToS3
  {
  }

  /** Row `at` belongs to the record, names the file and points at the key. */
  predicate RowAt(files: seq<FileRow>, at: nat, recordId: nat, name: string, kind: FileKind, key: Key) {
    && at < |files|
    && files[at].recordId == recordId
    && files[at].fileName == name
    && files[at].kind == kind
    && files[at].s3Key == key
  }

  /** On success the old rows stay in front and one row per file follows them. */
  lemma SuccessKeepsRows(t: Tables, x: LegacyInput, user: UserId, env: S3Env, uuid: nat -> string, fault: Fault)
    requires Passes(x) && !Throws(t, user, x, fault)
    ensures var files := Run(t, x, user, env, uuid, fault).tables.files;
      |files| == |t.files| + |x.images| + |x.videos| && files[..|t.files|] == t.files
  {
    var parts := Parts(x);
    var rows := RowsFor(|t.records|, parts, Results(env, parts, uuid), |parts|);
    assert Committed(t, user, x, env, uuid).files == t.files + rows;
  }

  /** Part k is a file and row `base + k` describes it: the record, the file's name, its kind
      and its key. */
  predicate PartRows(files: seq<FileRow>, base: nat, recordId: nat, parts: seq<Part>, uuid: nat -> string) {
    forall k | 0 <= k < |parts| ::
      parts[k].value.Blob?
      && RowAt(files, base + k, recordId, parts[k].value.file.name, parts[k].kind, KeyFor(parts[k].kind, uuid(k)))
  }

  /** On success part k has the row right after the old rows and the k parts before it. */
  lemma SuccessPartRows(t: Tables, x: LegacyInput, user: UserId, env: S3Env, uuid: nat -> string, fault: Fault)
    requires Passes(x) && !Throws(t, user, x, fault)
    ensures PartRows(Run(t, x, user, env, uuid, fault).tables.files, |t.files|, |t.records|, Parts(x), uuid)
  {
    NoThrowAllFiles(t, x, user, fault);
    var files := Committed(t, user, x, env, uuid).files;
    assert Run(t, x, user, env, uuid, fault).tables.files == files;
    forall k | 0 <= k < |Parts(x)|
      ensures var p := Parts(x)[k];
        p.value.Blob? && RowAt(files, |t.files| + k, |t.records|, p.value.file.name, p.kind, KeyFor(p.kind, uuid(k)))
    {
      CommittedRow(t, x, user, env, uuid, k);
    }
  }

  /** Image i is a file and row `base + i` describes it, with key `images/uuid(i)`. */
  predicate ImageRows(files: seq<FileRow>, base: nat, recordId: nat, x: LegacyInput, uuid: nat -> string) {
    forall i | 0 <= i < |x.images| ::
      x.images[i].Blob? && RowAt(files, base + i, recordId, x.images[i].file.name, Image, KeyFor(Image, uuid(i)))
  }

  /** Video j is a file and row `base + |images| + j` describes it, with key
      `videos/uuid(|images| + j)`. */
  predicate VideoRows(files: seq<FileRow>, base: nat, recordId: nat, x: LegacyInput, uuid: nat -> string) {
    forall j | 0 <= j < |x.videos| ::
      x.videos[j].Blob?
      && RowAt(files, base + |x.images| + j, recordId, x.videos[j].file.name, Video, KeyFor(Video, uuid(|x.images| + j)))
  }

  /** The images come first among the parts. */
  lemma ImageRowsOfParts(files: seq<FileRow>, base: nat, recordId: nat, x: LegacyInput, uuid: nat -> string)
    requires PartRows(files, base, recordId, Parts(x), uuid)
    ensures ImageRows(files, base, recordId, x, uuid)
  {
    var parts := Parts(x);
    forall i | 0 <= i < |x.images|
      ensures x.images[i].Blob? && RowAt(files, base + i, recordId, x.images[i].file.name, Image, KeyFor(Image, uuid(i)))
    {
      assert parts[i] == Part(x.images[i], Image);
    }
  }

  /** The videos follow the images among the parts. */
  lemma VideoRowsOfParts(files: seq<FileRow>, base: nat, recordId: nat, x: LegacyInput, uuid: nat -> string)
    requires PartRows(files, base, recordId, Parts(x), uuid)
    ensures VideoRows(files, base, recordId, x, uuid)
  {
    var parts := Parts(x);
    forall j | 0 <= j < |x.videos|
      ensures x.videos[j].Blob?
        && RowAt(files, base + |x.images| + j, recordId, x.videos[j].file.name, Video, KeyFor(Video, uuid(|x.images| + j)))
    {
      var k := |x.images| + j;
      assert parts[k] == Part(x.videos[j], Video);
      assert base + k == base + |x.images| + j;
    }
  }

  /** On success image i has the row right after the old rows and the i-1 images before it,
      naming the file and pointing at `images/` and the i-th uuid. */
  lemma SuccessImageRows(t: Tables, x: LegacyInput, user: UserId, env: S3Env, uuid: nat -> string, fault: Fault)
    requires Passes(x) && !Throws(t, user, x, fault)
    ensures ImageRows(Run(t, x, user, env, uuid, fault).tables.files, |t.files|, |t.records|, x, uuid)
  {
    var files := Run(t, x, user, env, uuid, fault).tables.files;
    SuccessPartRows(t, x, user, env, uuid, fault);
    ImageRowsOfParts(files, |t.files|, |t.records|, x, uuid);
  }

  /** On success video j has the row after the old rows, every image's and the j-1 videos
      before it, naming the file and pointing at `videos/` and a uuid drawn after the images'. */
  lemma SuccessVideoRows(t: Tables, x: LegacyInput, user: UserId, env: S3Env, uuid: nat -> string, fault: Fault)
    requires Passes(x) && !Throws(t, user, x, fault)
    ensures VideoRows(Run(t, x, user, env, uuid, fault).tables.files, |t.files|, |t.records|, x, uuid)
  {
    var files := Run(t, x, user, env, uuid, fault).tables.files;
    SuccessPartRows(t, x, user, env, uuid, fault);
    VideoRowsOfParts(files, |t.files|, |t.records|, x, uuid);
  }

  /** The key `${folder}/${uuid}` spelled out per folder. */
  lemma FolderKey(id: string)
    ensures KeyFor(Image, id) == "images/" + id
    ensures KeyFor(Video, id) == "videos/" + id
  {
    assert Folder(Image) + "/" == "images/";
    assert Folder(Video) + "/" == "videos/";
  }

  /** A balance the charge would take below zero throws before any upload: 500, nothing
      uploaded, nothing to delete, the tables as they were. */
  lemma NegativeBalanceBeforeUploads(t: Tables, x: LegacyInput, user: UserId, env: S3Env,
                                     uuid: nat -> string, fault: Fault)
    requires Passes(x) && user in t.credits && t.credits[user] < x.credits.value
    ensures Run(t, x, user, env, uuid, fault) == Outcome(UploadingFailed, t, [], [])
  {
  }

  /** Any failure after validation answers 500 with the tables rolled back, and the keys sent
      for deletion are exactly the uploaded ones when fewer were pushed than files sent. */
  lemma FailureRollsBack(t: Tables, x: LegacyInput, user: UserId, env: S3Env, uuid: nat -> string, fault: Fault)
    requires Passes(x) && Throws(t, user, x, fault)
    ensures var o := Run(t, x, user, env, uuid, fault);
      && o.response == UploadingFailed && o.tables == t
      && (|o.uploaded| < |x.images| + |x.videos| ==> o.deleted == o.uploaded)
      && (|o.uploaded| == |x.images| + |x.videos| ==> o.deleted == [])
  {
  }

  /** When the row of the last file fails, or the commit itself fails, every file is already on
      S3 and the cleanup condition is false: the transaction is rolled back but no object is
      deleted, so the uploads are left without rows. */
  lemma LastStepFailureLeavesObjects(t: Tables, x: LegacyInput, user: UserId, env: S3Env,
                                     uuid: nat -> string, fault: Fault)
    requires Passes(x) && AllFiles(x) && !EarlyThrow(t, user, x, fault)
    requires fault == FailCommit || fault == FailCreateFile(|x.images| + |x.videos| - 1)
    ensures var o := Run(t, x, user, env, uuid, fault);
      && o.response == UploadingFailed && o.tables == t
      && o.uploaded == ResultKeys(Results(env, Parts(x), uuid)) && o.deleted == []
  {
    var keys := ResultKeys(Results(env, Parts(x), uuid));
    assert keys[..|keys|] == keys;
    AllFilesParts(x);
    EffectiveAllFiles(Parts(x), fault);
  }

  /** A failing upload of part k, when the parts before it are files, leaves exactly the first
      k keys uploaded, and all of them are sent for deletion. */
  lemma UploadFailureDeletesEarlier(t: Tables, x: LegacyInput, user: UserId, env: S3Env,
                                    uuid: nat -> string, k: nat)
    requires Passes(x) && !EarlyThrow(t, user, x, FailUpload(k)) && k < |x.images| + |x.videos|
    requires FilesBefore(Parts(x), k)
    ensures var o := Run(t, x, user, env, uuid, FailUpload(k));
      && o.response == UploadingFailed && o.tables == t
      && o.uploaded == ResultKeys(Results(env, Parts(x), uuid))[..k] && o.deleted == o.uploaded
  {
    EffectiveNotBefore(Parts(x), FailUpload(k), k);
    assert Effective(Parts(x), FailUpload(k)) == FailUpload(k);
  }

  /** Every part is a file exactly when every image and video entry is. */
  lemma AllFilesParts(x: LegacyInput)
    ensures AllFiles(x) <==> FilesBefore(Parts(x), |Parts(x)|)
  {
    var parts := Parts(x);
    if FilesBefore(parts, |parts|) {
      forall j | 0 <= j < |x.videos|
        ensures x.videos[j].Blob?
      {
        assert parts[|x.images| + j].value == x.videos[j];
      }
    }
  }

  /** The upload of the first text entry under `image` or `video` throws (`file.stream()` is
      not a function of a string) when nothing threw before it: 500, the tables rolled back, and
      the files before it uploaded and all sent for deletion. */
  lemma TextPartThrows(t: Tables, x: LegacyInput, user: UserId, env: S3Env, uuid: nat -> string,
                       fault: Fault, k: nat)
    requires Passes(x) && !EarlyThrow(t, user, x, fault)
    requires k < |Parts(x)| && k == FirstText(Parts(x))
    requires !((fault.FailUpload? || fault.FailCreateFile?) && fault.index < k)
    ensures var keys := ResultKeys(Results(env, Parts(x), uuid));
      Run(t, x, user, env, uuid, fault) == Outcome(UploadingFailed, t, keys[..k], keys[..k])
  {
    assert Effective(Parts(x), fault) == FailUpload(k);
  }

  /** A form with a text entry under `image` or `video` never commits: whatever else happens,
      the answer is 500 and the tables are as they were. */
  lemma TextEntryNeverCommits(t: Tables, x: LegacyInput, user: UserId, env: S3Env, uuid: nat -> string,
                              fault: Fault)
    requires Passes(x) && !AllFiles(x)
    ensures var o := Run(t, x, user, env, uuid, fault);
      o.response == UploadingFailed && o.tables == t
  {
    AllFilesParts(x);
    if !Throws(t, user, x, fault) {
      NoThrowAllFiles(t, x, user, fault);
    }
  }

  /** An image file followed by a text entry under `image`: the file is uploaded, the text entry
      throws, and the one key is sent for deletion. */
  lemma TextAfterImageExample(t: Tables, x: LegacyInput, user: UserId, env: S3Env, uuid: nat -> string,
                              f: LocalFile, s: string)
    requires Passes(x) && x.images == [Blob(f), Text(s)] && x.videos == []
    requires user in t.credits && x.credits.value <= t.credits[user]
    ensures var key := KeyFor(Image, uuid(0));
      Run(t, x, user, env, uuid, NoFault) == Outcome(UploadingFailed, t, [key], [key])
  {
    var parts := Parts(x);
    assert parts[0].value.Blob? && parts[1].value.Text?;
    assert parts[1..][0].value.Text?;
    assert FirstText(parts) == 1;
    TextPartThrows(t, x, user, env, uuid, NoFault, 1);
    UploadKey(env, Image, uuid(0));
  }
}
