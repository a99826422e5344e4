/**
 * The contest page (app/contest/page.tsx): pick one video, ask the backend for signed PUT URLs,
 * upload the files one at a time with XMLHttpRequest, record each key whose upload answers 200,
 * then commit the upload. On any error it asks the delete endpoint to remove exactly the keys
 * recorded so far and counts the failed attempt. The signed-URL reply, every XHR and the commit
 * reply are parameters: the backend behind them is not part of this model.
 */
module ContestPage {
  import opened Wrappers
  import opened JsText
  import opened Dropzone
  import opened Storage
  import CommitRoute

  const MaxAttempts := 2
  const MaxFileCount := 1
  /** The "Submit Again" button is disabled from this many attempts on. */
  const RetryLimit := 3
  const Theme := "love"

  const CapMessage := "You can upload up to 1 video file(s) only."
  const CouldNotUpload := "Sorry, could not upload. Please try again."
  const UploadFailedMessage := "Upload failed. Please try again."
  const SupportMessage := "Could not upload. Please contact our support."
  const SignedUrlsFailed := "Failed to get signed URLs"
  const S3UploadFailed := "Failed to upload file to S3"
  /** The TypeError V8 throws when `signedUrls[i]` is undefined; only its difference from
      `UploadFailedMessage` matters here. */
  const PairingError := "Cannot read properties of undefined (reading 'url')"

  /** `calculateTotalSize`: the sum of the file sizes. */
  function TotalSize(files: seq<LocalFile>): nat {
    if |files| == 0 then 0 else TotalSize(files[..|files| - 1]) + files[|files| - 1].size
  }

  lemma {:induction false} TotalSizeAppend(a: seq<LocalFile>, b: seq<LocalFile>)
    ensures TotalSize(a + b) == TotalSize(a) + TotalSize(b)
    decreases |b|
  {
    if |b| == 0 {
      assert a + b == a;
    } else {
      assert (a + b)[..|a + b| - 1] == a + b[..|b| - 1];
      TotalSizeAppend(a, b[..|b| - 1]);
    }
  }

  /** Every file's size is part of the total. */
  lemma {:induction false} TotalSizeCovers(files: seq<LocalFile>, i: nat)
    requires i < |files|
    ensures files[i].size <= TotalSize(files)
    decreases |files|
  {
    if i < |files| - 1 {
      TotalSizeCovers(files[..|files| - 1], i);
    }
  }

  function SumProgress(p: seq<real>): real {
    if |p| == 0 then 0.0 else SumProgress(p[..|p| - 1]) + p[|p| - 1]
  }

  /** `overallProgress`: the mean of the entries; NaN (None) when there is none. */
  function OverallProgress(p: seq<real>): (r: Option<real>)
    ensures r.None? <==> |p| == 0
    ensures r.Some? ==> r.value * |p| as real == SumProgress(p)
  {
    if |p| == 0 then None else Some(SumProgress(p) / |p| as real)
  }

  predicate Percentages(p: seq<real>) {
    forall i | 0 <= i < |p| :: 0.0 <= p[i] <= 100.0
  }

  lemma {:induction false} SumProgressBounded(p: seq<real>)
    requires Percentages(p)
    ensures 0.0 <= SumProgress(p) <= 100.0 * |p| as real
    decreases |p|
  {
    if |p| > 0 {
      SumProgressBounded(p[..|p| - 1]);
    }
  }

  /** The mean of percentages is a percentage. */
  lemma OverallProgressBounded(p: seq<real>)
    requires |p| > 0 && Percentages(p)
    ensures 0.0 <= OverallProgress(p).value <= 100.0
  {
    SumProgressBounded(p);
  }

  /** An XHR progress event. */
  datatype ProgressEvent = ProgressEvent(lengthComputable: bool, loaded: nat, total: nat)

  /** What ends an XHR: `onload` with a status, `onerror`, or `send` throwing. */
  datatype XhrResult = Loaded(status: int) | NetworkError | SendThrows

  /** One upload as the browser plays it out: its progress events, then how it ends. */
  datatype Xhr = Xhr(events: seq<ProgressEvent>, result: XhrResult)

  predicate Succeeds(x: Xhr) {
    x.result == Loaded(200)
  }

  predicate Counts(e: ProgressEvent) {
    e.lengthComputable && e.total > 0
  }

  function Percent(e: ProgressEvent): real
    requires e.total > 0
  {
    (e.loaded as real / e.total as real) * 100.0
  }

  /** The entry after the events: the last counted event's percentage, `init` when none counts. */
  function LastProgress(events: seq<ProgressEvent>, init: real): real {
    if |events| == 0 then init
    else if Counts(events[|events| - 1]) then Percent(events[|events| - 1])
    else LastProgress(events[..|events| - 1], init)
  }

  /** An event never loads more than its total, so the entry stays a percentage. */
  lemma {:induction false} LastProgressBounded(events: seq<ProgressEvent>, init: real)
    requires 0.0 <= init <= 100.0
    requires forall i | 0 <= i < |events| :: events[i].loaded <= events[i].total
    ensures 0.0 <= LastProgress(events, init) <= 100.0
    decreases |events|
  {
    if |events| > 0 {
      var e := events[|events| - 1];
      if Counts(e) {
        assert e.loaded as real <= e.total as real;
        assert e.loaded as real / e.total as real <= 1.0;
      } else {
        LastProgressBounded(events[..|events| - 1], init);
      }
    }
  }

  function Zeros(n: nat): (z: seq<real>)
    ensures |z| == n && forall i | 0 <= i < n :: z[i] == 0.0
  {
    seq(n, i => 0.0)
  }

  /** The progress array once files 0..m-1 have played their events. */
  function ProgressAfter(n: nat, xhrs: seq<Xhr>, m: nat): (p: seq<real>)
    requires m <= n <= |xhrs|
    ensures |p| == n
    ensures forall i | 0 <= i < m :: p[i] == LastProgress(xhrs[i].events, 0.0)
    ensures forall i | m <= i < n :: p[i] == 0.0
  {
    seq(n, i requires 0 <= i < n => if i < m then LastProgress(xhrs[i].events, 0.0) else 0.0)
  }

  /** The index of the first upload that does not answer 200; the count when all do. */
  function FirstFailure(xhrs: seq<Xhr>): (k: nat)
    ensures k <= |xhrs|
    ensures forall i | 0 <= i < k :: Succeeds(xhrs[i])
    ensures k < |xhrs| ==> !Succeeds(xhrs[k])
  {
    if |xhrs| == 0 || !Succeeds(xhrs[0]) then 0 else 1 + FirstFailure(xhrs[1..])
  }

  datatype SignedUrl = SignedUrl(url: string, key: Key)

  /** The reply of POST /api/s3/signed-url: a fetch that throws, a non-ok status with its
      `error` field, or an ok body whose fields may be missing. */
  datatype SignedUrlReply =
    | UrlsNetworkError(message: string)
    | UrlsNotOk(error: Option<string>)
    | UrlsOk(signedUrls: Option<seq<SignedUrl>>, s3FolderName: Option<string>)

  /** The reply of POST /api/s3/upload. */
  datatype CommitReply = CommitNetworkError(message: string) | CommitNotOk(error: Option<string>) | CommitOk

  /** The JSON the page sends to /api/s3/upload; `fileSize` and `totalVideoSizeMB` are left out. */
  datatype ContestRequest = ContestRequest(
    theme: string,
    description: string,
    socialShareUrl: string,
    totalVideoSeconds: int,
    s3FolderName: string,
    uploadedFiles: seq<CommitRoute.Descriptor>)

  /** The keys of the signed URLs, in order. */
  function SignedKeys(urls: seq<SignedUrl>): (keys: seq<Key>)
    ensures |keys| == |urls| && forall i | 0 <= i < |urls| :: keys[i] == urls[i].key
  {
    seq(|urls|, i requires 0 <= i < |urls| => urls[i].key)
  }

  /** `uploadedFiles`: video i paired with signed URL i; the location sent is the signed URL. */
  function Descriptors(videos: seq<LocalFile>, urls: seq<SignedUrl>): (ds: seq<CommitRoute.Descriptor>)
    requires |videos| <= |urls|
    ensures |ds| == |videos|
    ensures forall i | 0 <= i < |videos| ::
      ds[i] == CommitRoute.Descriptor(videos[i].name, SplitSecond(videos[i].mimeType, '/'), urls[i].key, urls[i].url, CommitRoute.VideoType)
  {
    seq(|videos|, i requires 0 <= i < |videos| =>
      CommitRoute.Descriptor(videos[i].name, SplitSecond(videos[i].mimeType, '/'), urls[i].key, urls[i].url, CommitRoute.VideoType))
  }

  /** The request as the commit route reads it: the page sends none of role, rentalAddress,
      deposit, currency, otherEmail, totalCredits or totalImageSizeMB, and its seconds are a JSON
      number that `parseInt` reads through `String`. */
  function AsCommitBody(req: ContestRequest): CommitRoute.CommitBody {
    CommitRoute.CommitBody(None, None, None, None, None, None, Some(IntToString(req.totalVideoSeconds)),
      Some(req.s3FolderName), Some(req.uploadedFiles), None)
  }

  /** Every commit the page can send is refused by the commit route as it stands: with a
      signed-in user the answer is 400 and nothing changes. */
  lemma ContestCommitRejected(t: Tables, req: ContestRequest, session: Option<CommitRoute.Session>, fault: Fault)
    requires CommitRoute.SessionUserId(session).Some?
    ensures CommitRoute.Handle(t, Some(AsCommitBody(req)), session, fault) == CommitRoute.Outcome(CommitRoute.InvalidInput, t, [])
  {
  }

  /** The page's state; `toasts` are the messages shown, `deleteRequests` the key lists posted to
      /api/s3/delete, `commitRequests` the bodies posted to /api/s3/upload, and `resetPending`
      the 4-second timer that sets `attempts` back to 0. */
  datatype PageState = PageState(
    selectedVideos: seq<LocalFile>,
    rejectionMessages: seq<string>,
    totalVideoSeconds: int,
    description: string,
    socialShareUrl: string,
    isUploading: bool,
    attempts: nat,
    uploadSuccess: bool,
    uploadFailed: bool,
    uploadProgress: seq<real>,
    uploadedFileKeys: seq<Key>,
    toasts: seq<string>,
    deleteRequests: seq<seq<Key>>,
    commitRequests: seq<ContestRequest>,
    resetPending: bool)

  /** `onDrop`: refuse a drop that would exceed one video; otherwise append the files whose
      names are new, total the durations of the whole selection, and list the rejections. After a
      successful upload the page shows only the "Go to Gallery" view, so there is no dropzone. */
  function DropSpec(s: PageState, accepted: seq<LocalFile>, rejections: seq<Rejection>): PageState {
    if s.uploadSuccess then s
    else if |s.selectedVideos| + |accepted| > MaxFileCount then
      s.(rejectionMessages := [], toasts := s.toasts + [CapMessage])
    else
      var updated := s.selectedVideos + NewFiles(s.selectedVideos, accepted);
      s.(selectedVideos := updated, totalVideoSeconds := SumDurations(updated).Floor,
         rejectionMessages := RejectionMessages(rejections))
  }

  /** The catch block: the toast unless a non-server error hits the last allowed attempt, the
      recorded keys to the delete endpoint, one more attempt, and on the attempt that started at
      `MaxAttempts` the support message and the reset timer. */
  function Caught(s: PageState, message: string, attemptsAtStart: nat): PageState {
    s.(toasts := s.toasts + FailureToasts(message, attemptsAtStart),
       deleteRequests := s.deleteRequests + [s.uploadedFileKeys],
       attempts := s.attempts + 1, isUploading := false, uploadFailed := true,
       resetPending := s.resetPending || attemptsAtStart == MaxAttempts)
  }

  /** The toasts of the catch block, in order. */
  function FailureToasts(message: string, attemptsAtStart: nat): seq<string> {
    (if message != UploadFailedMessage && attemptsAtStart == MaxAttempts then [] else [UploadFailedMessage])
    + (if attemptsAtStart == MaxAttempts then [SupportMessage] else [])
  }

  /** The state `onUpload` starts from once a video is selected. */
  function Started(s: PageState): PageState {
    s.(isUploading := true, uploadSuccess := false, uploadFailed := false, uploadedFileKeys := [],
       uploadProgress := Zeros(|s.selectedVideos|))
  }

  /** The commit and what follows it, once every upload answered 200. */
  function AfterCommit(u: PageState, attemptsAtStart: nat, req: ContestRequest, commit: CommitReply): PageState {
    var c := u.(commitRequests := u.commitRequests + [req]);
    match commit
    case CommitNetworkError(m) => Caught(c, m, attemptsAtStart)
    case CommitNotOk(e) => Caught(c, if e.Some? then e.value else "", attemptsAtStart)
    case CommitOk => c.(uploadSuccess := true, isUploading := false)
  }

  /** The uploads and the commit, once enough signed URLs and a folder arrived. */
  function AfterUrls(r: PageState, attemptsAtStart: nat, urls: seq<SignedUrl>, folder: string,
                     xhrs: seq<Xhr>, commit: CommitReply): PageState
    requires |xhrs| == |r.selectedVideos| <= |urls|
  {
    var n := |xhrs|;
    var k := FirstFailure(xhrs);
    var u := r.(uploadedFileKeys := SignedKeys(urls)[..k],
                uploadProgress := ProgressAfter(n, xhrs, if k < n then k + 1 else n));
    if k < n then Caught(u, S3UploadFailed, attemptsAtStart)
    else
      AfterCommit(u, attemptsAtStart, ContestRequest(Theme, r.description, r.socialShareUrl, r.totalVideoSeconds,
        folder, Descriptors(r.selectedVideos, urls)), commit)
  }

  /** `onUpload` played against the replies: one `Xhr` per selected video. */
  function UploadSpec(s: PageState, reply: SignedUrlReply, xhrs: seq<Xhr>, commit: CommitReply): PageState
    requires |xhrs| == |s.selectedVideos|
  {
    if |s.selectedVideos| == 0 then s else AfterReply(Started(s), s.attempts, reply, xhrs, commit)
  }

  /** What the signed-URL reply leads to, from the started state. */
  function AfterReply(r: PageState, attemptsAtStart: nat, reply: SignedUrlReply, xhrs: seq<Xhr>, commit: CommitReply): PageState
    requires |xhrs| == |r.selectedVideos|
  {
    match reply
    case UrlsNetworkError(m) => Caught(r, m, attemptsAtStart)
    case UrlsNotOk(e) => Caught(r, if Truthy(e) then e.value else SignedUrlsFailed, attemptsAtStart)
    case UrlsOk(urls, folder) =>
      if urls.None? || !Truthy(folder) then
        r.(toasts := r.toasts + [CouldNotUpload], isUploading := false, uploadFailed := true)
      else if |urls.value| < |xhrs| then Caught(r, PairingError, attemptsAtStart)
      else AfterUrls(r, attemptsAtStart, urls.value, folder.value, xhrs, commit)
  }

  /** The Submit button (shown while no attempt has failed). */
  predicate SubmitDisabled(s: PageState) {
    |s.selectedVideos| == 0 || s.description == "" || s.socialShareUrl == ""
  }

  /** The "Submit Again" button (shown once an attempt failed). */
  predicate RetryDisabled(s: PageState) {
    s.attempts >= RetryLimit
  }

  predicate ButtonEnabled(s: PageState) {
    if s.uploadFailed then !RetryDisabled(s) else !SubmitDisabled(s)
  }

  /** A click on whichever button is shown; a disabled button does nothing, and after a
      successful upload neither button is shown. */
  function ClickSpec(s: PageState, reply: SignedUrlReply, xhrs: seq<Xhr>, commit: CommitReply): PageState
    requires |xhrs| == |s.selectedVideos|
  {
    if !s.uploadSuccess && ButtonEnabled(s) then UploadSpec(s, reply, xhrs, commit) else s
  }

  /** Typing into the description or the share URL field; the fields are gone after a
      successful upload. */
  function EditSpec(s: PageState, description: string, socialShareUrl: string): PageState {
    if s.uploadSuccess then s else s.(description := description, socialShareUrl := socialShareUrl)
  }

  /** The support timer fires. */
  function TimerSpec(s: PageState): PageState {
    s.(attempts := 0, resetPending := false)
  }

  /** The attempt counter stays within 0..3, the timer is pending exactly while it is 3, and a
      count of 3 is only reached through a failure. */
  predicate Valid(s: PageState) {
    s.attempts <= RetryLimit && (s.resetPending <==> s.attempts == RetryLimit) && (s.attempts == RetryLimit ==> s.uploadFailed)
  }

  /** From three failed attempts on, "Submit Again" is disabled and a click changes nothing until
      the support timer resets the counter. */
  lemma RetryBlocked(s: PageState, reply: SignedUrlReply, xhrs: seq<Xhr>, commit: CommitReply)
    requires |xhrs| == |s.selectedVideos| && s.uploadFailed && s.attempts >= RetryLimit
    ensures ClickSpec(s, reply, xhrs, commit) == s
  {
  }

  lemma ClickKeepsValid(s: PageState, reply: SignedUrlReply, xhrs: seq<Xhr>, commit: CommitReply)
    requires Valid(s) && |xhrs| == |s.selectedVideos|
    ensures Valid(ClickSpec(s, reply, xhrs, commit))
  {
    if !s.uploadSuccess && ButtonEnabled(s) && |s.selectedVideos| > 0 {
      UploadAttempts(s, reply, xhrs, commit);
    }
  }

  lemma DropKeepsValid(s: PageState, accepted: seq<LocalFile>, rejections: seq<Rejection>)
    requires Valid(s)
    ensures Valid(DropSpec(s, accepted, rejections))
  {
  }

  lemma TimerKeepsValid(s: PageState)
    requires Valid(s) && s.resetPending
    ensures Valid(TimerSpec(s)) && TimerSpec(s).attempts == 0
  {
  }

  /** An attempt either fails through the catch block (one more attempt, the timer armed when it
      started at `MaxAttempts`), stops on missing URLs, or succeeds; the latter two leave the
      counter and the timer alone. */
  lemma UploadAttempts(s: PageState, reply: SignedUrlReply, xhrs: seq<Xhr>, commit: CommitReply)
    requires |xhrs| == |s.selectedVideos| > 0
    ensures var r := UploadSpec(s, reply, xhrs, commit);
      || (&& r.attempts == s.attempts + 1 && r.uploadFailed && !r.isUploading
          && r.resetPending == (s.resetPending || s.attempts == MaxAttempts))
      || (r.attempts == s.attempts && r.resetPending == s.resetPending)
  {
  }

  /** With no video selected `onUpload` changes nothing. */
  lemma NoVideoNoUpload(s: PageState, reply: SignedUrlReply, commit: CommitReply)
    requires |s.selectedVideos| == 0
    ensures UploadSpec(s, reply, [], commit) == s
  {
  }

  /** Once an upload succeeded the page stays in its success view: a drop, a click, typing and
      the support timer all leave `uploadSuccess` set, and the first three change nothing. */
  lemma SuccessIsFinal(s: PageState, accepted: seq<LocalFile>, rejections: seq<Rejection>,
                       reply: SignedUrlReply, xhrs: seq<Xhr>, commit: CommitReply, d: string, u: string)
    requires s.uploadSuccess && |xhrs| == |s.selectedVideos|
    ensures DropSpec(s, accepted, rejections) == s
    ensures ClickSpec(s, reply, xhrs, commit) == s
    ensures EditSpec(s, d, u) == s
    ensures TimerSpec(s).uploadSuccess
  {
  }

  /** A drop over the cap only clears the rejection list and shows the cap message. */
  lemma DropOverCapRefused(s: PageState, accepted: seq<LocalFile>, rejections: seq<Rejection>)
    requires !s.uploadSuccess && |s.selectedVideos| + |accepted| > MaxFileCount
    ensures var r := DropSpec(s, accepted, rejections);
      r.selectedVideos == s.selectedVideos && r.totalVideoSeconds == s.totalVideoSeconds
      && r.rejectionMessages == [] && r.toasts == s.toasts + [CapMessage]
  {
  }

  /** A drop within the cap appends only files whose names are not selected yet, and the total
      is the floor of the summed durations. */
  lemma DropWithinCap(s: PageState, accepted: seq<LocalFile>, rejections: seq<Rejection>)
    requires !s.uploadSuccess && |s.selectedVideos| + |accepted| <= MaxFileCount
    ensures var r := DropSpec(s, accepted, rejections);
      && |s.selectedVideos| <= |r.selectedVideos| <= MaxFileCount
      && r.selectedVideos[..|s.selectedVideos|] == s.selectedVideos
      && (forall i | |s.selectedVideos| <= i < |r.selectedVideos| ::
            r.selectedVideos[i] in accepted && !HasName(s.selectedVideos, r.selectedVideos[i].name))
      && r.totalVideoSeconds == SumDurations(r.selectedVideos).Floor
      && r.rejectionMessages == RejectionMessages(rejections)
  {
    var added := NewFiles(s.selectedVideos, accepted);
    var updated := s.selectedVideos + added;
    forall i | |s.selectedVideos| <= i < |updated|
      ensures updated[i] in accepted && !HasName(s.selectedVideos, updated[i].name)
    {
      assert updated[i] == added[i - |s.selectedVideos|];
    }
  }

  /** When the signed URLs arrive and upload k is the first that does not answer 200, the keys
      recorded are exactly those of files 0..k-1, in order; they are what the delete endpoint
      receives; no commit is sent; only the progress entries 0..k moved. */
  lemma UploadFailureDeletesRecorded(s: PageState, urls: seq<SignedUrl>, folder: string, xhrs: seq<Xhr>,
                                     commit: CommitReply)
    requires |xhrs| == |s.selectedVideos| > 0 && |urls| >= |s.selectedVideos| && folder != ""
    requires FirstFailure(xhrs) < |xhrs|
    ensures var k, r := FirstFailure(xhrs), UploadSpec(s, UrlsOk(Some(urls), Some(folder)), xhrs, commit);
      && |r.uploadedFileKeys| == k
      && (forall i | 0 <= i < k :: r.uploadedFileKeys[i] == urls[i].key && Succeeds(xhrs[i]))
      && r.deleteRequests == s.deleteRequests + [r.uploadedFileKeys]
      && r.commitRequests == s.commitRequests
      && r.attempts == s.attempts + 1 && r.uploadFailed && !r.isUploading && !r.uploadSuccess
      && (forall i | k < i < |xhrs| :: r.uploadProgress[i] == 0.0)
  {
  }

  /** A commit is sent only when the URLs arrived and every upload answered 200; it then
      carries one descriptor per video, paired by position with the signed URLs. */
  lemma CommitOnlyAfterAllUploads(s: PageState, reply: SignedUrlReply, xhrs: seq<Xhr>, commit: CommitReply)
    requires |xhrs| == |s.selectedVideos|
    requires |UploadSpec(s, reply, xhrs, commit).commitRequests| != |s.commitRequests|
    ensures reply.UrlsOk? && reply.signedUrls.Some? && |reply.signedUrls.value| >= |xhrs|
    ensures forall i | 0 <= i < |xhrs| :: Succeeds(xhrs[i])
    ensures var r := UploadSpec(s, reply, xhrs, commit);
      && r.commitRequests == s.commitRequests + [r.commitRequests[|s.commitRequests|]]
      && r.uploadedFileKeys == SignedKeys(reply.signedUrls.value)[..|xhrs|]
      && |r.commitRequests[|s.commitRequests|].uploadedFiles| == |xhrs|
  {
  }

  /** Every failing attempt posts the recorded keys to the delete endpoint; an attempt that
      started at `MaxAttempts` also shows the support message and arms the reset timer. */
  lemma FailureBookkeeping(s: PageState, reply: SignedUrlReply, xhrs: seq<Xhr>, commit: CommitReply)
    requires |xhrs| == |s.selectedVideos| > 0
    requires UploadSpec(s, reply, xhrs, commit).attempts != s.attempts
    ensures var r := UploadSpec(s, reply, xhrs, commit);
      && r.attempts == s.attempts + 1 && r.uploadFailed && !r.isUploading && !r.uploadSuccess
      && r.deleteRequests == s.deleteRequests + [r.uploadedFileKeys]
      && (s.attempts == MaxAttempts ==> r.resetPending && r.toasts[|r.toasts| - 1] == SupportMessage)
  {
  }

  /** The failure toast is shown unless a message other than the server's hits an attempt that
      started at `MaxAttempts`; the support message is shown exactly on such attempts, last. */
  lemma FailureToastsRule(message: string, attemptsAtStart: nat)
    ensures var ts := FailureToasts(message, attemptsAtStart);
      && (UploadFailedMessage in ts <==> message == UploadFailedMessage || attemptsAtStart != MaxAttempts)
      && (SupportMessage in ts <==> attemptsAtStart == MaxAttempts)
      && (attemptsAtStart == MaxAttempts ==> ts[|ts| - 1] == SupportMessage)
  {
    assert UploadFailedMessage != SupportMessage by {
      assert |UploadFailedMessage| != |SupportMessage|;
    }
  }

  /** The message the page singles out is the commit route's own 500 message. */
  lemma ServerMessageMatches()
    ensures CommitRoute.UploadFailed.body.error == UploadFailedMessage
  {
  }

  /** The page as a component: its state variables and the handlers that change them. */
  class Contest {
    var selectedVideos: seq<LocalFile>
    var rejectionMessages: seq<string>
    var totalVideoSeconds: int
    var description: string
    var socialShareUrl: string
    var isUploading: bool
    var attempts: nat
    var uploadSuccess: bool
    var uploadFailed: bool
    var uploadProgress: seq<real>
    var uploadedFileKeys: seq<Key>
    var toasts: seq<string>
    var deleteRequests: seq<seq<Key>>
    var commitRequests: seq<ContestRequest>
    var resetPending: bool

    function State(): PageState
      reads this
    {
      PageState(selectedVideos, rejectionMessages, totalVideoSeconds, description, socialShareUrl,
        isUploading, attempts, uploadSuccess, uploadFailed, uploadProgress, uploadedFileKeys,
        toasts, deleteRequests, commitRequests, resetPending)
    }

    /** The state on first render. */
    constructor()
      ensures State() == PageState([], [], 0, "", "", false, 0, false, false, [], [], [], [], [], false)
      ensures Valid(State())
    {
      selectedVideos, rejectionMessages, totalVideoSeconds := [], [], 0;
      description, socialShareUrl := "", "";
      isUploading, attempts, uploadSuccess, uploadFailed := false, 0, false, false;
      uploadProgress, uploadedFileKeys, toasts := [], [], [];
      deleteRequests, commitRequests, resetPending := [], [], false;
    }

    method SetDescription(value: string)
      modifies this
      ensures State() == EditSpec(old(State()), value, old(socialShareUrl))
    {
      if !uploadSuccess {
        description := value;
      }
    }

    method SetSocialShareUrl(value: string)
      modifies this
      ensures State() == EditSpec(old(State()), old(description), value)
    {
      if !uploadSuccess {
        socialShareUrl := value;
      }
    }

    /** `onDrop`, with each file's duration as the browser reports it. */
    method OnDrop(accepted: seq<LocalFile>, rejections: seq<Rejection>)
      modifies this
      ensures State() == DropSpec(old(State()), accepted, rejections)
    {
      if uploadSuccess {
        return;
      }
      ghost var s := State();
      rejectionMessages := [];
      if |selectedVideos| + |accepted| > MaxFileCount {
        toasts := toasts + [CapMessage];
        assert State() == s.(rejectionMessages := [], toasts := s.toasts + [CapMessage]);
        return;
      }
      var updated := selectedVideos + NewFiles(selectedVideos, accepted);
      var totalSeconds := TotalDuration(updated);
      selectedVideos, totalVideoSeconds, rejectionMessages := updated, totalSeconds.Floor, RejectionMessages(rejections);
      assert State() == s.(selectedVideos := updated, totalVideoSeconds := SumDurations(updated).Floor,
                           rejectionMessages := RejectionMessages(rejections));
    }

    /** `uploadFileToS3` for video `index`: each counted progress event sets that entry alone;
        a 200 records the key; anything else rejects. */
    method UploadFileToS3(key: Key, index: nat, xhr: Xhr) returns (ok: bool)
      requires index < |uploadProgress|
      modifies this
      ensures ok == Succeeds(xhr)
      ensures State() == old(State()).(
        uploadProgress := old(uploadProgress)[index := LastProgress(xhr.events, old(uploadProgress)[index])],
        uploadedFileKeys := old(uploadedFileKeys) + (if ok then [key] else []))
    {
      var j := 0;
      ghost var init := uploadProgress[index];
      while j < |xhr.events|
        invariant 0 <= j <= |xhr.events|
        invariant uploadProgress == old(uploadProgress)[index := LastProgress(xhr.events[..j], init)]
        invariant State() == old(State()).(uploadProgress := uploadProgress)
      {
        var e := xhr.events[j];
        assert xhr.events[..j + 1][..j] == xhr.events[..j];
        if e.lengthComputable && e.total > 0 {
          uploadProgress := uploadProgress[index := (e.loaded as real / e.total as real) * 100.0];
        }
        j := j + 1;
      }
      assert xhr.events[..j] == xhr.events;
      ok := xhr.result == Loaded(200);
      if ok {
        uploadedFileKeys := uploadedFileKeys + [key];
      }
    }

    /** `deleteUploadedFiles`: one POST with the keys; a failing fetch is only logged. */
    method DeleteUploadedFiles(keys: seq<Key>)
      modifies this
      ensures State() == old(State()).(deleteRequests := old(deleteRequests) + [keys])
    {
      deleteRequests := deleteRequests + [keys];
    }

    /** The catch block of `onUpload`. */
    method Catch(message: string, attemptsAtStart: nat)
      modifies this
      ensures State() == Caught(old(State()), message, attemptsAtStart)
    {
      DeleteUploadedFiles(uploadedFileKeys);
      toasts, attempts, isUploading, uploadFailed, resetPending :=
        toasts + FailureToasts(message, attemptsAtStart), attempts + 1, false, true,
        resetPending || attemptsAtStart == MaxAttempts;
    }

    /** The sequential upload loop: stops at the first upload that rejects and returns its
        index, or the count when all succeed. */
    method UploadAll(urls: seq<SignedUrl>, xhrs: seq<Xhr>) returns (k: nat)
      requires |xhrs| == |selectedVideos| <= |urls|
      requires uploadedFileKeys == [] && uploadProgress == Zeros(|selectedVideos|)
      modifies this
      ensures k == FirstFailure(xhrs)
      ensures State() == old(State()).(uploadedFileKeys := SignedKeys(urls)[..k],
        uploadProgress := ProgressAfter(|xhrs|, xhrs, if k < |xhrs| then k + 1 else |xhrs|))
    {
      var n := |selectedVideos|;
      k := 0;
      while k < n
        invariant 0 <= k <= n && n == |selectedVideos| && n == |xhrs|
        invariant forall i | 0 <= i < k :: Succeeds(xhrs[i])
        invariant State() == old(State()).(uploadedFileKeys := SignedKeys(urls)[..k],
          uploadProgress := ProgressAfter(n, xhrs, k))
      {
        UploadStep(urls, xhrs, n, k);
        var ok := UploadFileToS3(urls[k].key, k, xhrs[k]);
        if !ok {
          FirstFailureAt(xhrs, k);
          return;
        }
        k := k + 1;
      }
      FirstFailureAt(xhrs, k);
    }

    /** Everything after the signed URLs arrived: the upload loop, then the commit. */
    method UploadAndCommit(attemptsAtStart: nat, urls: seq<SignedUrl>, folder: string, xhrs: seq<Xhr>, commit: CommitReply)
      requires |xhrs| == |selectedVideos| <= |urls|
      requires uploadedFileKeys == [] && uploadProgress == Zeros(|selectedVideos|)
      modifies this
      ensures State() == AfterUrls(old(State()), attemptsAtStart, urls, folder, xhrs, commit)
    {
      var k := UploadAll(urls, xhrs);
      if k < |xhrs| {
        Catch(S3UploadFailed, attemptsAtStart);
        return;
      }
      var req := ContestRequest(Theme, description, socialShareUrl, totalVideoSeconds,
                                folder, Descriptors(selectedVideos, urls));
      commitRequests := commitRequests + [req];
      match commit {
        case CommitNetworkError(m) =>
          Catch(m, attemptsAtStart);
        case CommitNotOk(e) =>
          Catch(if e.Some? then e.value else "", attemptsAtStart);
        case CommitOk =>
          uploadSuccess, isUploading := true, false;
      }
    }

    /** `onUpload`, with the signed-URL reply, one XHR per video and the commit reply. */
    method OnUpload(reply: SignedUrlReply, xhrs: seq<Xhr>, commit: CommitReply)
      requires |xhrs| == |selectedVideos|
      modifies this
      ensures State() == UploadSpec(old(State()), reply, xhrs, commit)
    {
      var n := |selectedVideos|;
      if n == 0 {
        return;
      }
      var attemptsAtStart := attempts;
      Start();
      HandleReply(attemptsAtStart, reply, xhrs, commit);
    }

    /** The per-attempt reset at the top of `onUpload`. */
    method Start()
      modifies this
      ensures State() == Started(old(State()))
      ensures uploadedFileKeys == [] && uploadProgress == Zeros(|selectedVideos|)
    {
      isUploading, uploadSuccess, uploadFailed, uploadedFileKeys, uploadProgress :=
        true, false, false, [], Zeros(|selectedVideos|);
    }

    /** The body of the `try` from the signed-URL request on. */
    method HandleReply(attemptsAtStart: nat, reply: SignedUrlReply, xhrs: seq<Xhr>, commit: CommitReply)
      requires |xhrs| == |selectedVideos|
      requires uploadedFileKeys == [] && uploadProgress == Zeros(|selectedVideos|)
      modifies this
      ensures State() == AfterReply(old(State()), attemptsAtStart, reply, xhrs, commit)
    {
      match reply {
        case UrlsNetworkError(m) =>
          Catch(m, attemptsAtStart);
        case UrlsNotOk(e) =>
          Catch(if Truthy(e) then e.value else SignedUrlsFailed, attemptsAtStart);
        case UrlsOk(urls, folder) =>
          if urls.None? || !Truthy(folder) {
            toasts, isUploading, uploadFailed := toasts + [CouldNotUpload], false, true;
          } else if |urls.value| < |xhrs| {
            Catch(PairingError, attemptsAtStart);
          } else {
            UploadAndCommit(attemptsAtStart, urls.value, folder.value, xhrs, commit);
          }
      }
    }

    /** A click on the shown button. */
    method Click(reply: SignedUrlReply, xhrs: seq<Xhr>, commit: CommitReply)
      requires |xhrs| == |selectedVideos|
      modifies this
      ensures State() == ClickSpec(old(State()), reply, xhrs, commit)
    {
      var enabled := if uploadFailed then attempts < RetryLimit
                     else !(|selectedVideos| == 0 || description == "" || socialShareUrl == "");
      if !uploadSuccess && enabled {
        OnUpload(reply, xhrs, commit);
      }
    }

    /** The support timer fires. */
    method SupportTimerFires()
      modifies this
      ensures State() == TimerSpec(old(State()))
    {
      attempts := 0;
      resetPending := false;
    }
  }

  /** Upload k of the loop: its key joins the pushed keys and its bar takes its last value. */
  lemma UploadStep(urls: seq<SignedUrl>, xhrs: seq<Xhr>, n: nat, k: nat)
    requires k < n <= |xhrs| && k < |urls|
    ensures SignedKeys(urls)[..k + 1] == SignedKeys(urls)[..k] + [urls[k].key]
    ensures var p := ProgressAfter(n, xhrs, k);
      p[k := LastProgress(xhrs[k].events, p[k])] == ProgressAfter(n, xhrs, k + 1)
  {
    var p := ProgressAfter(n, xhrs, k);
    assert p[k] == 0.0;
  }

  lemma FirstFailureAt(xhrs: seq<Xhr>, k: nat)
    requires k <= |xhrs|
    requires forall i | 0 <= i < k :: Succeeds(xhrs[i])
    requires k < |xhrs| ==> !Succeeds(xhrs[k])
    ensures FirstFailure(xhrs) == k
  {
  }

  /** The duration loop of `onDrop`: the sum of the durations of `files`, in order. */
  method TotalDuration(files: seq<LocalFile>) returns (total: real)
    ensures total == SumDurations(files)
  {
    total := 0.0;
    var i := 0;
    while i < |files|
      invariant 0 <= i <= |files|
      invariant total == SumDurations(files[..i])
    {
      assert files[..i + 1][..i] == files[..i];
      total := total + files[i].duration;
      i := i + 1;
    }
    assert files[..i] == files;
  }
}
