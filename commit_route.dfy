/**
 * POST /api/s3/upload: the route that records files a client has already put in S3. It checks
 * the session, validates the JSON body, and in one Prisma transaction creates the record, charges
 * the user, marks the record uploaded and adds a row per file. When anything throws after the
 * file keys have been read from the body, it asks S3 to delete every one of them.
 */
module CommitRoute {
  import opened Wrappers
  import opened JsText
  import opened Email
  import opened Storage
  import opened Http

  /** One element of the body's `uploadedFiles`. `kind` is its `type` property as sent: the
      interface declares 'IMAGE' | 'VIDEO', but nothing in the route checks it. */
  datatype Descriptor = Descriptor(
    fileName: string,
    fileExtension: Option<string>,
    s3Key: Key,
    s3Location: string,
    kind: string)

  const ImageType := "IMAGE"
  const VideoType := "VIDEO"

  /** The value of the `type` column a descriptor's `type` names; the column is a Prisma enum, so
      any other string makes `file.create` throw. */
  function KindOf(s: string): Option<FileKind> {
    if s == ImageType then Some(Image) else if s == VideoType then Some(Video) else None
  }

  /** Every descriptor names a value the `type` column accepts. */
  predicate KnownKinds(files: seq<Descriptor>) {
    forall i | 0 <= i < |files| :: KindOf(files[i].kind).Some?
  }

  /** The JSON body; a property that is absent or null is None. */
  datatype CommitBody = CommitBody(
    role: Option<string>,
    address: Option<string>,
    securityDepositAmount: Option<string>,
    securityDepositCurrency: Option<string>,
    otherEmail: Option<string>,
    totalCredits: Option<string>,
    totalVideoSeconds: Option<string>,
    s3FolderName: Option<string>,
    uploadedFiles: Option<seq<Descriptor>>,
    totalImageSizeMB: Option<string>)

  /** What `getServerSession` returns, when it returns a session. */
  datatype SessionUser = SessionUser(id: Option<UserId>)
  datatype Session = Session(user: Option<SessionUser>)

  const Unauthorized := Response(401, Failure("Unauthorized"))
  const InvalidInput := Response(400, Failure("Invalid input"))
  const UploadFailed := Response(500, Failure("Upload failed. Please try again."))
  const Uploaded := Response(200, SuccessTrue)

  /** The signed-in user's id, when the session, its user and a non-empty id are all present. */
  function SessionUserId(session: Option<Session>): (r: Option<UserId>)
    ensures r.Some? <==> session.Some? && session.value.user.Some? && Truthy(session.value.user.value.id)
    ensures r.Some? ==> session.value.user.value.id == r
  {
    if session.None? || session.value.user.None? || !Truthy(session.value.user.value.id) then None
    else session.value.user.value.id
  }

  /** The values the route goes on with once validation passes. */
  datatype Checked = Checked(
    role: string,
    address: string,
    deposit: int,
    currency: string,
    email: string,
    credits: int,
    seconds: Option<int>,
    folder: string,
    files: seq<Descriptor>)

  /** 400, a TypeError from reading `uploadedFiles.length` when the property is missing, or the
      checked values. */
  datatype Validation = Rejected | Crashes | Accepted(checked: Checked)

  /** Every test of the validation condition before the `uploadedFiles.length` one passes. */
  predicate FieldsPass(b: CommitBody) {
    && Truthy(b.role) && Truthy(b.address)
    && ParseIntField(b.securityDepositAmount, Ten).Some?
    && Truthy(b.securityDepositCurrency) && Truthy(b.s3FolderName) && Truthy(b.otherEmail)
    && IsRouteEmail(b.otherEmail.value)
    && ParseIntField(b.totalCredits, Ten).Some?
    && !ParseFloatFieldIsNaN(b.totalImageSizeMB)
  }

  /** The validation condition, evaluated left to right with `||` short-circuiting. */
  function Validate(b: CommitBody): (v: Validation)
    ensures v.Accepted? <==> FieldsPass(b) && b.uploadedFiles.Some? && |b.uploadedFiles.value| > 0
    ensures v.Crashes? <==> FieldsPass(b) && b.uploadedFiles.None?
    ensures v.Accepted? ==>
      && Some(v.checked.role) == b.role && Some(v.checked.address) == b.address
      && Some(v.checked.currency) == b.securityDepositCurrency && Some(v.checked.email) == b.otherEmail
      && Some(v.checked.folder) == b.s3FolderName && Some(v.checked.files) == b.uploadedFiles
      && ParseIntField(b.securityDepositAmount, Ten) == Some(v.checked.deposit)
      && ParseIntField(b.totalCredits, Ten) == Some(v.checked.credits)
      && ParseIntField(b.totalVideoSeconds, Ten) == v.checked.seconds
      && IsRouteEmail(v.checked.email) && |v.checked.files| > 0
  {
    var deposit := ParseIntField(b.securityDepositAmount, Ten);
    var credits := ParseIntField(b.totalCredits, Ten);
    var seconds := ParseIntField(b.totalVideoSeconds, Ten);
    if !Truthy(b.role) then Rejected
    else if !Truthy(b.address) then Rejected
    else if deposit.None? then Rejected
    else if !Truthy(b.securityDepositCurrency) then Rejected
    else if !Truthy(b.s3FolderName) then Rejected
    else if !Truthy(b.otherEmail) then Rejected
    else if !IsRouteEmail(b.otherEmail.value) then Rejected
    else if credits.None? then Rejected
    else if ParseFloatFieldIsNaN(b.totalImageSizeMB) then Rejected
    else if b.uploadedFiles.None? then Crashes
    else if |b.uploadedFiles.value| == 0 then Rejected
    else Accepted(Checked(b.role.value, b.address.value, deposit.value, b.securityDepositCurrency.value,
      b.otherEmail.value, credits.value, seconds, b.s3FolderName.value, b.uploadedFiles.value))
  }

  /** `uploadedFiles.filter(file => file.type === kind).length` */
  function CountKind(files: seq<Descriptor>, kind: string): (n: nat)
    ensures n <= |files|
  {
    if |files| == 0 then 0
    else (if files[0].kind == kind then 1 else 0) + CountKind(files[1..], kind)
  }

  /** When every descriptor is an image or a video, the two counts add up to the number of
      files; a descriptor of any other type counts in neither (see `UnknownTypeThrows`). */
  lemma {:induction false} CountKindSplit(files: seq<Descriptor>)
    requires KnownKinds(files)
    ensures CountKind(files, ImageType) + CountKind(files, VideoType) == |files|
    decreases |files|
  {
    if |files| > 0 {
      assert KnownKinds(files[1..]) by {
        forall i | 0 <= i < |files[1..]| ensures KindOf(files[1..][i].kind).Some? {
          assert files[1..][i] == files[i + 1];
        }
      }
      CountKindSplit(files[1..]);
    }
  }

  /** A descriptor whose type is neither 'IMAGE' nor 'VIDEO' is left out of both counts. */
  lemma {:induction false} UnknownTypeUncounted(files: seq<Descriptor>, i: nat)
    requires i < |files| && KindOf(files[i].kind).None?
    ensures CountKind(files, ImageType) + CountKind(files, VideoType) < |files|
    decreases |files|
  {
    if i == 0 {
      CountKindBoth(files[1..]);
    } else {
      UnknownTypeUncounted(files[1..], i - 1);
    }
  }

  lemma {:induction false} CountKindBoth(files: seq<Descriptor>)
    ensures CountKind(files, ImageType) + CountKind(files, VideoType) <= |files|
    decreases |files|
  {
    if |files| > 0 {
      CountKindBoth(files[1..]);
    }
  }

  /** `uploadedFiles.map(file => file.s3Key)` */
  function Keys(files: seq<Descriptor>): (keys: seq<Key>)
    ensures |keys| == |files|
    ensures forall i | 0 <= i < |files| :: keys[i] == files[i].s3Key
  {
    seq(|files|, i requires 0 <= i < |files| => files[i].s3Key)
  }

  /** The record as `record.create` writes it. */
  function NewRecord(user: UserId, c: Checked): Record {
    Record(user, c.role, c.address, c.deposit, c.currency, c.email, c.credits, c.seconds,
      Some(c.folder), CountKind(c.files, ImageType), CountKind(c.files, VideoType), Created)
  }

  /** The file row `file.create` writes for a descriptor of a known type. */
  function RowOf(recordId: nat, d: Descriptor): FileRow
    requires KindOf(d.kind).Some?
  {
    FileRow(recordId, d.fileName, d.fileExtension, d.s3Key, d.s3Location, KindOf(d.kind).value, FileUploadedToS3)
  }

  function Rows(recordId: nat, files: seq<Descriptor>): (rows: seq<FileRow>)
    requires KnownKinds(files)
    ensures |rows| == |files|
    ensures forall i | 0 <= i < |files| :: rows[i] == RowOf(recordId, files[i])
  {
    seq(|files|, i requires 0 <= i < |files| => RowOf(recordId, files[i]))
  }

  /** Some call inside the transaction throws: an injected fault on a call the transaction makes,
      a missing user, a balance that the charge takes below zero, or a row whose type the enum
      column refuses. */
  predicate TxnThrows(t: Tables, user: UserId, c: Checked, fault: Fault) {
    || fault == FailCreateRecord || fault == FailDecrement || fault == FailSetStatus || fault == FailCommit
    || (fault.FailCreateFile? && fault.index < |c.files|)
    || !KnownKinds(c.files)
    || user !in t.credits
    || t.credits[user] - c.credits < 0
  }

  /** The tables after the transaction commits. */
  function Committed(t: Tables, user: UserId, c: Checked): Tables
    requires user in t.credits && KnownKinds(c.files)
  {
    Tables(
      t.credits[user := t.credits[user] - c.credits],
      t.records + [NewRecord(user, c).(status := UploadedToS3)],
      t.files + Rows(|t.records|, c.files))
  }

  /** The response, the tables afterwards, and the keys the route asks S3 to delete. */
  datatype Outcome = Outcome(response: Response, tables: Tables, deleted: seq<Key>)

  /** The route as a whole: reading the JSON body (None when it does not parse), the session
      check, validation, the transaction and the compensating delete. */
  function Handle(t: Tables, body: Option<CommitBody>, session: Option<Session>, fault: Fault): Outcome {
    if body.None? then Outcome(UploadFailed, t, [])
    else
      match SessionUserId(session)
      case None => Outcome(Unauthorized, t, [])
      case Some(user) =>
        match Validate(body.value)
        case Rejected => Outcome(InvalidInput, t, [])
        case Crashes => Outcome(UploadFailed, t, [])
        case Accepted(c) =>
          if TxnThrows(t, user, c, fault) then Outcome(UploadFailed, t, Keys(c.files))
          else Outcome(Uploaded, Committed(t, user, c), [])
  }

  /** The transaction body, call by call. It returns false when a call throws; the caller then
      rolls back. */
  method Transaction(db: Database, user: UserId, c: Checked, fault: Fault) returns (ok: bool)
    modifies db
    ensures ok <==> !TxnThrows(old(db.State()), user, c, fault)
    ensures ok ==> db.State() == Committed(old(db.State()), user, c)
  {
    var t := db.State();
    if fault == FailCreateRecord {
      return false;
    }
    var id := db.CreateRecord(NewRecord(user, c));
    if fault == FailDecrement {
      return false;
    }
    var found, balance := db.Decrement(user, c.credits);
    if !found || balance < 0 {
      return false;
    }
    if fault == FailSetStatus {
      return false;
    }
    var updated := db.SetStatus(id, user, UploadedToS3);
    assert updated;
    assert db.records == t.records + [NewRecord(user, c).(status := UploadedToS3)];
    ok := CreateFiles(db, id, c.files, fault);
    if !ok || fault == FailCommit {
      return false;
    }
    return true;
  }

  /** The `for` loop over `uploadedFiles`: one `file.create` per descriptor, in order. It stops
      at the first create that throws: the injected fault, or a type the column does not accept. */
  method CreateFiles(db: Database, id: nat, files: seq<Descriptor>, fault: Fault) returns (ok: bool)
    modifies db
    ensures ok <==> KnownKinds(files) && !(fault.FailCreateFile? && fault.index < |files|)
    ensures ok ==> db.files == old(db.files) + Rows(id, files)
    ensures db.credits == old(db.credits) && db.records == old(db.records)
  {
    var i := 0;
    while i < |files|
      invariant 0 <= i <= |files|
      invariant db.credits == old(db.credits) && db.records == old(db.records)
      invariant KnownKinds(files[..i])
      invariant db.files == old(db.files) + Rows(id, files[..i])
      invariant !(fault.FailCreateFile? && fault.index < i)
    {
      if fault == FailCreateFile(i) || KindOf(files[i].kind).None? {
        return false;
      }
      assert Rows(id, files[..i + 1]) == Rows(id, files[..i]) + [RowOf(id, files[i])];
      db.CreateFile(RowOf(id, files[i]));
      i := i + 1;
    }
    assert files[..i] == files;
    return true;
  }

  /** `deleteUploadedFiles`: one DeleteObject per key. The requests run concurrently in the
      route; every key is attempted and a failure is swallowed. */
  method DeleteUploadedFiles(store: ObjectStore, keys: seq<Key>, failing: set<Key>)
    modifies store
    ensures store.deleteLog == old(store.deleteLog) + keys
    ensures store.objects == Surviving(old(store.objects), keys, failing)
  {
    store.DeleteEach(keys, failing);
  }

  /** The handler. Prisma's `$transaction` is a snapshot taken before the callback and restored
      when it throws. */
  method Post(db: Database, store: ObjectStore, body: Option<CommitBody>, session: Option<Session>,
              fault: Fault, failing: set<Key>) returns (response: Response)
    modifies db, store
    ensures var o := Handle(old(db.State()), body, session, fault);
      && response == o.response && db.State() == o.tables
      && store.deleteLog == old(store.deleteLog) + o.deleted
      && store.objects == Surviving(old(store.objects), o.deleted, failing)
  {
    var uploadedFileKeys: seq<Key> := [];
    var thrown := false;
    if body.None? {
      thrown := true;
    } else {
      var user := SessionUserId(session);
      if user.None? {
        return Unauthorized;
      }
      var v := Validate(body.value);
      if v.Rejected? {
        return InvalidInput;
      }
      if v.Crashes? {
        thrown := true;
      } else {
        uploadedFileKeys := Keys(v.checked.files);
        var snapshot := db.State();
        var ok := Transaction(db, user.value, v.checked, fault);
        if !ok {
          db.Restore(snapshot);
          thrown := true;
        }
      }
    }
    if thrown {
      DeleteUploadedFiles(store, uploadedFileKeys, failing);
      return UploadFailed;
    }
    return Uploaded;
  }

  // ---------------------------------------------------------------------------------------------
  // Properties of the route

  /** Without a session, a user or a user id the answer is 401, before validation, any write or
      any delete. */
  lemma UnauthorizedFirst(t: Tables, body: CommitBody, session: Option<Session>, fault: Fault)
    requires session.None? || session.value.user.None? || !Truthy(session.value.user.value.id)
    ensures Handle(t, Some(body), session, fault) == Outcome(Unauthorized, t, [])
  {
  }

  /** Input that fails validation gets 400 and changes nothing. */
  lemma InvalidInputNoEffect(t: Tables, body: CommitBody, session: Option<Session>, fault: Fault)
    requires SessionUserId(session).Some?
    requires !FieldsPass(body) || (body.uploadedFiles.Some? && |body.uploadedFiles.value| == 0)
    ensures Handle(t, Some(body), session, fault) == Outcome(InvalidInput, t, [])
  {
  }

  /** `totalVideoSeconds` is stored but never checked. */
  lemma SecondsUnchecked(body: CommitBody, seconds: Option<string>)
    ensures Validate(body.(totalVideoSeconds := seconds)).Accepted? == Validate(body).Accepted?
  {
  }

  /** All or nothing: every answer other than 200 leaves the tables as they were. */
  lemma FailureChangesNothing(t: Tables, body: Option<CommitBody>, session: Option<Session>, fault: Fault)
    ensures Handle(t, body, session, fault).response != Uploaded ==> Handle(t, body, session, fault).tables == t
  {
  }

  /** The keys are read from the body after validation; a throw from then on deletes every
      descriptor's key, one before it (bad JSON, a missing `uploadedFiles`) deletes nothing, and
      only a 500 deletes anything. */
  lemma DeletesAfterCapture(t: Tables, body: Option<CommitBody>, session: Option<Session>, fault: Fault)
    ensures var o := Handle(t, body, session, fault);
      && (o.deleted != [] ==> o.response == UploadFailed)
      && ((body.Some? && SessionUserId(session).Some? && Validate(body.value).Accepted?
           && o.response == UploadFailed) ==> o.deleted == Keys(Validate(body.value).checked.files))
      && (body.None? || (SessionUserId(session).Some? && Validate(body.value).Crashes?) ==>
          o.response == UploadFailed && o.deleted == [])
  {
    var o := Handle(t, body, session, fault);
    if body.Some? && SessionUserId(session).Some? && Validate(body.value).Accepted? {
      var u, c := SessionUserId(session).value, Validate(body.value).checked;
      assert o.deleted == if TxnThrows(t, u, c, fault) then Keys(c.files) else [];
      assert o.response == if TxnThrows(t, u, c, fault) then UploadFailed else Uploaded;
    } else {
      assert o.deleted == [];
    }
  }

  /** A charge that takes the balance below zero throws: 500, every table unchanged, every key
      sent for deletion. */
  lemma InsufficientCredits(t: Tables, body: CommitBody, session: Option<Session>, fault: Fault)
    requires SessionUserId(session).Some? && Validate(body).Accepted?
    requires var u := SessionUserId(session).value;
      u in t.credits && t.credits[u] - Validate(body).checked.credits < 0
    ensures Handle(t, Some(body), session, fault) == Outcome(UploadFailed, t, Keys(Validate(body).checked.files))
  {
  }

  /** A 200 comes from a session with a user id, a body that validates and a transaction that did
      not throw; the tables are then the committed ones. */
  lemma SuccessCommitted(t: Tables, body: CommitBody, session: Option<Session>, fault: Fault)
    requires Handle(t, Some(body), session, fault).response == Uploaded
    ensures SessionUserId(session).Some? && Validate(body).Accepted?
    ensures var u, c := SessionUserId(session).value, Validate(body).checked;
      && !TxnThrows(t, u, c, fault)
      && Handle(t, Some(body), session, fault).tables == Committed(t, u, c)
  {
    assert UploadFailed != Uploaded && Unauthorized != Uploaded && InvalidInput != Uploaded;
  }

  /** On a 200 the user was charged exactly the client's `totalCredits`, without going below zero,
      and every other balance is kept. */
  lemma SuccessCharges(t: Tables, body: CommitBody, session: Option<Session>, fault: Fault)
    requires Handle(t, Some(body), session, fault).response == Uploaded
    ensures SessionUserId(session).Some? && Validate(body).Accepted?
    ensures var u, c, t' := SessionUserId(session).value, Validate(body).checked, Handle(t, Some(body), session, fault).tables;
      && u in t.credits && u in t'.credits
      && t'.credits[u] == t.credits[u] - c.credits >= 0
      && (forall v | v in t.credits && v != u :: v in t'.credits && t'.credits[v] == t.credits[v])
      && t'.credits.Keys == t.credits.Keys
  {
    SuccessCommitted(t, body, session, fault);
  }

  /** On a 200 one record was added, owned by the user, charging the credits, with the image and
      video counts of the descriptors and status UPLOADED_TO_S3. */
  lemma SuccessRecord(t: Tables, body: CommitBody, session: Option<Session>, fault: Fault)
    requires Handle(t, Some(body), session, fault).response == Uploaded
    ensures SessionUserId(session).Some? && Validate(body).Accepted?
    ensures var u, c, t' := SessionUserId(session).value, Validate(body).checked, Handle(t, Some(body), session, fault).tables;
      && |t'.records| == |t.records| + 1 && t'.records[..|t.records|] == t.records
      && (var r := t'.records[|t.records|];
          && r.userId == u && r.creditsCharged == c.credits && r.status == UploadedToS3
          && r.numImages == CountKind(c.files, ImageType) && r.numVideos == CountKind(c.files, VideoType)
          && r.numImages + r.numVideos == |c.files|)
  {
    SuccessCommitted(t, body, session, fault);
    CountKindSplit(Validate(body).checked.files);
  }

  /** On a 200 one row per descriptor was added, in order, linked to the new record, carrying the
      descriptor's name, extension, key, location and kind and status UPLOADED_TO_S3. */
  lemma SuccessRows(t: Tables, body: CommitBody, session: Option<Session>, fault: Fault)
    requires Handle(t, Some(body), session, fault).response == Uploaded
    ensures SessionUserId(session).Some? && Validate(body).Accepted?
    ensures var c, t' := Validate(body).checked, Handle(t, Some(body), session, fault).tables;
      && |t'.files| == |t.files| + |c.files| && t'.files[..|t.files|] == t.files
      && (forall i | 0 <= i < |c.files| ::
            && t'.files[|t.files| + i].recordId == |t.records|
            && t'.files[|t.files| + i].fileName == c.files[i].fileName
            && t'.files[|t.files| + i].fileExtension == c.files[i].fileExtension
            && t'.files[|t.files| + i].s3Key == c.files[i].s3Key
            && t'.files[|t.files| + i].s3Location == c.files[i].s3Location
            && KindOf(c.files[i].kind) == Some(t'.files[|t.files| + i].kind)
            && t'.files[|t.files| + i].uploadStatus == FileUploadedToS3)
  {
    SuccessCommitted(t, body, session, fault);
  }

  /** A descriptor whose type is neither 'IMAGE' nor 'VIDEO' is refused by the enum column when its
      row is written: 500, every table unchanged, every key sent for deletion. */
  lemma UnknownTypeThrows(t: Tables, body: CommitBody, session: Option<Session>, fault: Fault, i: nat)
    requires SessionUserId(session).Some? && Validate(body).Accepted?
    requires var files := Validate(body).checked.files; i < |files| && KindOf(files[i].kind).None?
    ensures Handle(t, Some(body), session, fault) == Outcome(UploadFailed, t, Keys(Validate(body).checked.files))
  {
  }

  /** The route never leaves a balance negative. */
  lemma BalancesStayNonNegative(t: Tables, body: Option<CommitBody>, session: Option<Session>, fault: Fault)
    requires BalancesNonNegative(t)
    ensures BalancesNonNegative(Handle(t, body, session, fault).tables)
  {
  }

  /** The charge is not checked for sign: a negative `totalCredits` that the transaction accepts
      adds credits to the balance. */
  lemma NegativeChargeAddsCredits(t: Tables, body: CommitBody, session: Option<Session>, fault: Fault)
    requires Handle(t, Some(body), session, fault).response == Uploaded
    requires Validate(body).Accepted? && Validate(body).checked.credits < 0
    ensures var u := SessionUserId(session).value;
      Handle(t, Some(body), session, fault).tables.credits[u] > t.credits[u]
  {
  }
}
