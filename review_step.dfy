/**
 * The wizard's last step: it totals the credits of the order, shows the summary, and posts every
 * field and file as multipart form data to the legacy upload route (POST /api/s3).
 */
module Review {
  import opened Wrappers
  import opened JsText
  import opened Dropzone
  import opened Email
  import opened LegacyRoute

  /** What the wizard hands to the step. */
  datatype WizardData = WizardData(
    role: string,
    address: string,
    securityDepositAmount: string,
    securityDepositCurrency: string,
    otherEmail: string,
    selectedImages: seq<LocalFile>,
    selectedVideos: seq<LocalFile>)

  /** The step's state; `posts` are the forms sent to the route, in order. */
  datatype ReviewState = ReviewState(
    loading: bool,
    isUploading: bool,
    totalCredits: int,
    totalVideoSeconds: int,
    toasts: seq<string>,
    posts: seq<seq<FormEntry>>)

  const UploadSucceeded := "Upload successful!"
  const UploadFailedToast := "Upload failed, please try again."

  function EmailLabel(role: string): string {
    if role == "Tenant" then "Landlord Email:" else "Tenant Email:"
  }

  /** The summary's label reads "Landlord Email:" exactly for a tenant. */
  lemma EmailLabelRule(role: string)
    ensures EmailLabel(role) == "Landlord Email:" <==> role == "Tenant"
    ensures role != "Tenant" ==> EmailLabel(role) == "Tenant Email:"
  {
    assert "Landlord Email:"[0] != "Tenant Email:"[0];
  }

  /** `calculateCredits`: the floored seconds, and the floored sum of one credit per image and
      one per second. */
  function CalculateSpec(s: ReviewState, w: WizardData): ReviewState {
    var seconds := SumDurations(w.selectedVideos);
    s.(loading := false, totalVideoSeconds := seconds.Floor,
       totalCredits := (|w.selectedImages| as real + seconds).Floor)
  }

  /** One file part per file, all under the same field name, in order. */
  function FileEntries(name: string, files: seq<LocalFile>): (r: seq<FormEntry>)
    ensures |r| == |files|
    ensures forall i | 0 <= i < |files| :: r[i] == FormEntry(name, Blob(files[i]))
  {
    seq(|files|, i requires 0 <= i < |files| => FormEntry(name, Blob(files[i])))
  }

  /** The six text fields every upload carries. */
  function TextFields(w: WizardData, totalCredits: int): seq<FormEntry> {
    [FormEntry("role", Text(w.role)),
     FormEntry("rentalAddress", Text(w.address)),
     FormEntry("securityDeposit", Text(w.securityDepositAmount)),
     FormEntry("currency", Text(w.securityDepositCurrency)),
     FormEntry("otherPartyEmail", Text(w.otherEmail)),
     FormEntry("totalCredits", Text(IntToString(totalCredits)))]
  }

  /** The seconds field and the videos, sent only when there is a video. */
  function VideoFields(w: WizardData, totalVideoSeconds: int): seq<FormEntry> {
    if |w.selectedVideos| > 0 then
      [FormEntry("totalVideoSeconds", Text(IntToString(totalVideoSeconds)))] + FileEntries("video", w.selectedVideos)
    else []
  }

  /** The form `onUpload` builds. */
  function UploadForm(w: WizardData, totalCredits: int, totalVideoSeconds: int): seq<FormEntry> {
    TextFields(w, totalCredits) + FileEntries("image", w.selectedImages) + VideoFields(w, totalVideoSeconds)
  }

  /** `onUpload`: nothing without an image; otherwise post the form (`posted` is whether the request
      resolved), clear the uploading flag and toast the outcome. */
  function UploadSpec(s: ReviewState, w: WizardData, posted: bool): ReviewState {
    if |w.selectedImages| == 0 then s
    else
      s.(posts := s.posts + [UploadForm(w, s.totalCredits, s.totalVideoSeconds)], isUploading := false,
         toasts := s.toasts + [if posted then UploadSucceeded else UploadFailedToast])
  }

  /** The credits are the image count plus the whole seconds, so the two numbers the step posts
      are consistent. */
  lemma CreditsAreImagesPlusSeconds(s: ReviewState, w: WizardData)
    ensures var r := CalculateSpec(s, w);
      && r.totalVideoSeconds == SumDurations(w.selectedVideos).Floor
      && r.totalCredits == |w.selectedImages| + r.totalVideoSeconds
      && !r.loading
  {
    FloorShift(|w.selectedImages|, SumDurations(w.selectedVideos));
  }

  /** Without an image the button does nothing; with one, exactly one form is posted and the
      uploading flag ends cleared whatever the outcome. */
  lemma UploadEffects(s: ReviewState, w: WizardData, posted: bool)
    ensures |w.selectedImages| == 0 ==> UploadSpec(s, w, posted) == s
    ensures |w.selectedImages| > 0 ==>
      && UploadSpec(s, w, posted).posts == s.posts + [UploadForm(w, s.totalCredits, s.totalVideoSeconds)]
      && !UploadSpec(s, w, posted).isUploading
  {
  }

  /** The entries in order: the six text fields, one 'image' part per image, then, only when there
      are videos, the seconds field and one 'video' part per video. */
  lemma FormLayout(w: WizardData, c: int, t: int)
    ensures var form := UploadForm(w, c, t);
      var n := |w.selectedImages|;
      && |form| == 6 + n + (if |w.selectedVideos| > 0 then 1 + |w.selectedVideos| else 0)
      && form[..6] == TextFields(w, c)
      && (forall i | 0 <= i < n :: form[6 + i] == FormEntry("image", Blob(w.selectedImages[i])))
      && (|w.selectedVideos| > 0 ==>
            && form[6 + n] == FormEntry("totalVideoSeconds", Text(IntToString(t)))
            && forall j | 0 <= j < |w.selectedVideos| :: form[7 + n + j] == FormEntry("video", Blob(w.selectedVideos[j])))
  {
    var form := UploadForm(w, c, t);
    var n := |w.selectedImages|;
    assert form == TextFields(w, c) + (FileEntries("image", w.selectedImages) + VideoFields(w, t));
    forall i | 0 <= i < n ensures form[6 + i] == FormEntry("image", Blob(w.selectedImages[i])) {
      assert form[6 + i] == FileEntries("image", w.selectedImages)[i];
    }
    if |w.selectedVideos| > 0 {
      forall j | 0 <= j < |w.selectedVideos|
        ensures form[7 + n + j] == FormEntry("video", Blob(w.selectedVideos[j]))
      {
        assert form[7 + n + j] == VideoFields(w, t)[1 + j];
      }
    }
  }

  /** `get` finds the first entry under a name. */
  lemma {:induction false} FormGetAt(form: seq<FormEntry>, k: nat, name: string)
    requires k < |form| && form[k].name == name && form[k].value.Text?
    requires forall j | 0 <= j < k :: form[j].name != name
    ensures FormGet(form, name) == Some(form[k].value.text)
    decreases k
  {
    if k > 0 {
      FormGetAt(form[1..], k - 1, name);
    }
  }

  /** A list of file parts under other names holds no text entry under `name`. */
  lemma FileEntriesLackName(name: string, files: seq<LocalFile>, other: string)
    requires name != other
    ensures !HasEntry(FileEntries(name, files), other)
  {
  }

  /** `getAll` of a list of file parts under the same name: the files, in order. */
  lemma {:induction false} FormFilesOfEntries(name: string, files: seq<LocalFile>)
    ensures FormFiles(FileEntries(name, files), name) == Blobs(files)
    decreases |files|
  {
    if |files| > 0 {
      var entries := FileEntries(name, files);
      assert entries[1..] == FileEntries(name, files[1..]);
      FormFilesOfEntries(name, files[1..]);
      assert Blobs(files) == [Blob(files[0])] + Blobs(files[1..]);
      assert FormFiles(entries, name) == [Blob(files[0])] + Blobs(files[1..]);
    }
  }

  /** `getAll` of a list of file parts under another name: nothing. */
  lemma {:induction false} FormFilesOfOtherEntries(name: string, files: seq<LocalFile>, other: string)
    requires name != other
    ensures FormFiles(FileEntries(name, files), other) == []
    decreases |files|
  {
    if |files| > 0 {
      FormFilesOfOtherEntries(name, files[1..], other);
      assert FileEntries(name, files)[1..] == FileEntries(name, files[1..]);
    }
  }

  // `get` of each leading field: no earlier field shares its name.

  lemma ReadRole(w: WizardData, c: int)
    ensures FormGet(TextFields(w, c), "role") == Some(w.role)
  {
    var head := TextFields(w, c);
    FormGetAt(head, 0, "role");
  }

  lemma ReadAddress(w: WizardData, c: int)
    ensures FormGet(TextFields(w, c), "rentalAddress") == Some(w.address)
  {
    var head := TextFields(w, c);
    assert head[0].name != "rentalAddress";
    FormGetAt(head, 1, "rentalAddress");
  }

  lemma ReadDeposit(w: WizardData, c: int)
    ensures FormGet(TextFields(w, c), "securityDeposit") == Some(w.securityDepositAmount)
  {
    var head := TextFields(w, c);
    assert head[0].name != "securityDeposit" && head[1].name != "securityDeposit";
    FormGetAt(head, 2, "securityDeposit");
  }

  lemma ReadCurrency(w: WizardData, c: int)
    ensures FormGet(TextFields(w, c), "currency") == Some(w.securityDepositCurrency)
  {
    var head := TextFields(w, c);
    assert head[0].name != "currency" && head[1].name != "currency" && head[2].name != "currency";
    FormGetAt(head, 3, "currency");
  }

  lemma ReadOtherEmail(w: WizardData, c: int)
    ensures FormGet(TextFields(w, c), "otherPartyEmail") == Some(w.otherEmail)
  {
    var head := TextFields(w, c);
    assert head[0].name != "otherPartyEmail" && head[1].name != "otherPartyEmail";
    assert head[2].name != "otherPartyEmail" && head[3].name != "otherPartyEmail";
    FormGetAt(head, 4, "otherPartyEmail");
  }

  lemma ReadCredits(w: WizardData, c: int)
    ensures FormGet(TextFields(w, c), "totalCredits") == Some(IntToString(c))
  {
    var head := TextFields(w, c);
    assert head[0].name != "totalCredits" && head[1].name != "totalCredits" && head[2].name != "totalCredits";
    assert head[3].name != "totalCredits" && head[4].name != "totalCredits";
    FormGetAt(head, 5, "totalCredits");
  }

  /** The route's reads of the text fields: later entries cannot shadow the leading ones. */
  lemma ReadTextFields(w: WizardData, c: int, t: int)
    ensures var form := UploadForm(w, c, t);
      && FormGet(form, "role") == Some(w.role)
      && FormGet(form, "rentalAddress") == Some(w.address)
      && FormGet(form, "securityDeposit") == Some(w.securityDepositAmount)
      && FormGet(form, "currency") == Some(w.securityDepositCurrency)
      && FormGet(form, "otherPartyEmail") == Some(w.otherEmail)
      && FormGet(form, "totalCredits") == Some(IntToString(c))
  {
    ReadRole(w, c);
    ReadAddress(w, c);
    ReadDeposit(w, c);
    ReadCurrency(w, c);
    ReadOtherEmail(w, c);
    ReadCredits(w, c);
    ReadHeadField(w, c, t, "role");
    ReadHeadField(w, c, t, "rentalAddress");
    ReadHeadField(w, c, t, "securityDeposit");
    ReadHeadField(w, c, t, "currency");
    ReadHeadField(w, c, t, "otherPartyEmail");
    ReadHeadField(w, c, t, "totalCredits");
  }

  /** What follows the text fields does not change what `get` finds among them. */
  lemma ReadHeadField(w: WizardData, c: int, t: int, name: string)
    requires FormGet(TextFields(w, c), name).Some?
    ensures FormGet(UploadForm(w, c, t), name) == FormGet(TextFields(w, c), name)
  {
    var head := TextFields(w, c);
    var rest := FileEntries("image", w.selectedImages) + VideoFields(w, t);
    assert UploadForm(w, c, t) == head + rest;
    var e := FormEntry(name, Text(FormGet(head, name).value));
    var k :| 0 <= k < |head| && head[k] == e;
    assert head[k].name == name;
    FormGetAppend(head, rest, name);
  }

  /** The route's read of the seconds field: present exactly when there is a video. */
  lemma ReadSecondsField(w: WizardData, c: int, t: int)
    ensures FormGet(UploadForm(w, c, t), "totalVideoSeconds")
      == if |w.selectedVideos| > 0 then Some(IntToString(t)) else None
  {
    var name := "totalVideoSeconds";
    var head := TextFields(w, c);
    var images := FileEntries("image", w.selectedImages);
    var tail := VideoFields(w, t);
    assert !HasEntry(head, name);
    FileEntriesLackName("image", w.selectedImages, name);
    FormGetAppend(head, images + tail, name);
    FormGetAppend(images, tail, name);
    assert UploadForm(w, c, t) == head + (images + tail);
  }

  /** Entries under other names contribute nothing to `getAll(name)`. */
  lemma {:induction false} FormFilesOfText(form: seq<FormEntry>, name: string)
    requires forall i | 0 <= i < |form| :: form[i].name != name
    ensures FormFiles(form, name) == []
    decreases |form|
  {
    if |form| > 0 {
      FormFilesOfText(form[1..], name);
    }
  }

  /** The text fields at the head of the form contribute no file part. */
  lemma UploadFormFiles(w: WizardData, c: int, t: int, name: string)
    requires name == "image" || name == "video"
    ensures FormFiles(UploadForm(w, c, t), name)
         == FormFiles(FileEntries("image", w.selectedImages), name) + FormFiles(VideoFields(w, t), name)
  {
    var head := TextFields(w, c);
    var images := FileEntries("image", w.selectedImages);
    var tail := VideoFields(w, t);
    assert UploadForm(w, c, t) == head + (images + tail);
    FormFilesOfText(head, name);
    FormFilesAppend(head, images + tail, name);
    FormFilesAppend(images, tail, name);
  }

  /** The seconds field and the video parts contribute the videos, and no image. */
  lemma VideoFieldsFiles(w: WizardData, t: int)
    ensures FormFiles(VideoFields(w, t), "video") == Blobs(w.selectedVideos)
    ensures FormFiles(VideoFields(w, t), "image") == []
  {
    if |w.selectedVideos| > 0 {
      var seconds := [FormEntry("totalVideoSeconds", Text(IntToString(t)))];
      var videos := FileEntries("video", w.selectedVideos);
      FormFilesOfText(seconds, "video");
      FormFilesOfText(seconds, "image");
      FormFilesAppend(seconds, videos, "video");
      FormFilesAppend(seconds, videos, "image");
      FormFilesOfEntries("video", w.selectedVideos);
      FormFilesOfOtherEntries("video", w.selectedVideos, "image");
    }
  }

  /** The route's read of the image parts. */
  lemma ReadImageParts(w: WizardData, c: int, t: int)
    ensures FormFiles(UploadForm(w, c, t), "image") == Blobs(w.selectedImages)
  {
    UploadFormFiles(w, c, t, "image");
    FormFilesOfEntries("image", w.selectedImages);
    VideoFieldsFiles(w, t);
  }

  /** The route's read of the video parts. */
  lemma ReadVideoParts(w: WizardData, c: int, t: int)
    ensures FormFiles(UploadForm(w, c, t), "video") == Blobs(w.selectedVideos)
  {
    UploadFormFiles(w, c, t, "video");
    FormFilesOfOtherEntries("image", w.selectedImages, "video");
    VideoFieldsFiles(w, t);
  }

  /** What the legacy route reads from the form this step posts: every text field as sent, the two
      numbers back as the step computed them, the seconds only with videos, and the files in
      selection order. */
  lemma RouteReadsForm(w: WizardData, c: int, t: int)
    ensures ReadForm(UploadForm(w, c, t)) == LegacyInput(
      Some(w.role), Some(w.address), ParseInt(w.securityDepositAmount, Unspecified),
      Some(w.securityDepositCurrency), Some(w.otherEmail), Some(c),
      if |w.selectedVideos| > 0 then Some(t) else None,
      Blobs(w.selectedImages), Blobs(w.selectedVideos))
  {
    ReadTextFields(w, c, t);
    ReadSecondsField(w, c, t);
    ReadImageParts(w, c, t);
    ReadVideoParts(w, c, t);
    ParseIntOfIntToString(c, Unspecified);
    ParseIntOfIntToString(t, Unspecified);
  }

  /** The route accepts the step's form exactly when the text fields are non-empty, the deposit
      reads as a non-zero number, the address has the route's e-mail shape and the credits are not
      zero; the step itself guarantees an image. */
  lemma RouteAcceptsFormIff(w: WizardData, c: int, t: int)
    requires |w.selectedImages| > 0
    ensures Passes(ReadForm(UploadForm(w, c, t))) <==>
      && w.role != "" && w.address != "" && w.securityDepositCurrency != "" && w.otherEmail != ""
      && NumberTruthy(ParseInt(w.securityDepositAmount, Unspecified))
      && IsRouteEmail(w.otherEmail) && c != 0
  {
    RouteReadsForm(w, c, t);
  }

  class ReviewStep {
    var loading: bool
    var isUploading: bool
    var totalCredits: int
    var totalVideoSeconds: int
    var toasts: seq<string>
    var posts: seq<seq<FormEntry>>

    function State(): ReviewState
      reads this
    {
      ReviewState(loading, isUploading, totalCredits, totalVideoSeconds, toasts, posts)
    }

    constructor()
      ensures State() == ReviewState(true, false, 0, 0, [], [])
    {
      loading, isUploading, totalCredits, totalVideoSeconds := true, false, 0, 0;
      toasts, posts := [], [];
    }

    /** The effect on the selections. */
    method CalculateCredits(w: WizardData)
      modifies this
      ensures State() == CalculateSpec(old(State()), w)
    {
      loading := true;
      var seconds, credits := CreditTotals(|w.selectedImages|, w.selectedVideos);
      totalVideoSeconds, totalCredits, loading := seconds.Floor, credits.Floor, false;
    }

    method OnUpload(w: WizardData, posted: bool)
      modifies this
      ensures State() == UploadSpec(old(State()), w, posted)
    {
      if |w.selectedImages| == 0 {
        return;
      }
      isUploading := true;
      var form := BuildForm(w, totalCredits, totalVideoSeconds);
      posts := posts + [form];
      isUploading, toasts := false, toasts + [if posted then UploadSucceeded else UploadFailedToast];
    }
  }

  /** One more file, one more part at the end. */
  lemma FileEntriesSnoc(name: string, files: seq<LocalFile>, i: nat)
    requires i < |files|
    ensures FileEntries(name, files[..i + 1]) == FileEntries(name, files[..i]) + [FormEntry(name, Blob(files[i]))]
  {
  }

  /** The `append` calls of `onUpload`, in order. */
  method BuildForm(w: WizardData, totalCredits: int, totalVideoSeconds: int) returns (form: seq<FormEntry>)
    ensures form == UploadForm(w, totalCredits, totalVideoSeconds)
  {
    form := TextFields(w, totalCredits);
    ghost var head := form;
    for i := 0 to |w.selectedImages|
      invariant form == head + FileEntries("image", w.selectedImages[..i])
    {
      FileEntriesSnoc("image", w.selectedImages, i);
      form := form + [FormEntry("image", Blob(w.selectedImages[i]))];
    }
    assert w.selectedImages[..|w.selectedImages|] == w.selectedImages;
    if |w.selectedVideos| > 0 {
      form := form + [FormEntry("totalVideoSeconds", Text(IntToString(totalVideoSeconds)))];
      ghost var mid := form;
      for j := 0 to |w.selectedVideos|
        invariant form == mid + FileEntries("video", w.selectedVideos[..j])
      {
        FileEntriesSnoc("video", w.selectedVideos, j);
        form := form + [FormEntry("video", Blob(w.selectedVideos[j]))];
      }
      assert w.selectedVideos[..|w.selectedVideos|] == w.selectedVideos;
    }
  }
}
