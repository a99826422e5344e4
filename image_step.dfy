/**
 * The wizard step that collects the images, one credit each. It loads the user's balance, appends
 * dropped images whose names are not selected yet, and warns when the selection costs more
 * credits than the user holds.
 */
module ImageUpload {
  import opened Wrappers
  import opened Dropzone

  /** The selection (owned by the parent wizard) and the step's own state. */
  datatype ImageState = ImageState(
    selectedImages: seq<LocalFile>,
    availableCredits: nat,
    loadingCredits: bool,
    rejectionMessages: seq<string>,
    creditsNeededMessage: string,
    toasts: seq<string>)

  /** The message the credits check leaves for a selection of `count` images. */
  function ExpectedMessage(count: nat, credits: nat): string {
    if count > credits then CreditsNeededMessage(count - credits) else ""
  }

  /** Compare the selection with the balance: show and toast the shortfall, or clear the message. */
  function CreditsCheck(s: ImageState): ImageState {
    if |s.selectedImages| > s.availableCredits then
      var m := CreditsNeededMessage(|s.selectedImages| - s.availableCredits);
      s.(creditsNeededMessage := m, toasts := s.toasts + [m])
    else s.(creditsNeededMessage := "")
  }

  /** The balance request settles (None when it threw: the balance stays as it was), loading ends,
      and the effect on `availableCredits` and `loadingCredits` runs the credits check. */
  function LoadSpec(s: ImageState, fetched: Option<nat>): ImageState {
    var credits := if fetched.Some? then fetched.value else s.availableCredits;
    CreditsCheck(s.(availableCredits := credits, loadingCredits := false))
  }

  /** `onDrop`: append the dropped images whose names are new, check the credits, and list the
      rejected files' errors. */
  function DropSpec(s: ImageState, accepted: seq<LocalFile>, rejections: seq<Rejection>): ImageState {
    var updated := s.selectedImages + NewFiles(s.selectedImages, accepted);
    CreditsCheck(s.(selectedImages := updated)).(rejectionMessages := RejectionMessages(rejections))
  }

  function ResetSpec(s: ImageState): ImageState {
    s.(selectedImages := [], rejectionMessages := [], creditsNeededMessage := "")
  }

  predicate NextDisabled(s: ImageState) {
    |s.selectedImages| == 0 || |s.selectedImages| > s.availableCredits
  }

  /** No message while loading; once loaded, the message is exactly the current shortfall. */
  predicate Valid(s: ImageState) {
    s.creditsNeededMessage == if s.loadingCredits then "" else ExpectedMessage(|s.selectedImages|, s.availableCredits)
  }

  lemma LoadKeepsValid(s: ImageState, fetched: Option<nat>)
    ensures Valid(LoadSpec(s, fetched))
  {
  }

  lemma DropKeepsValid(s: ImageState, accepted: seq<LocalFile>, rejections: seq<Rejection>)
    requires !s.loadingCredits
    ensures Valid(DropSpec(s, accepted, rejections))
  {
  }

  lemma ResetKeepsValid(s: ImageState)
    requires !s.loadingCredits
    ensures Valid(ResetSpec(s))
  {
  }

  /** A drop keeps the selection as a prefix and appends after it every dropped image whose name
      is not selected yet, and nothing else. */
  lemma DropAppends(s: ImageState, accepted: seq<LocalFile>, rejections: seq<Rejection>)
    ensures var r := DropSpec(s, accepted, rejections).selectedImages;
      && r[..|s.selectedImages|] == s.selectedImages
      && (forall i | |s.selectedImages| <= i < |r| :: r[i] in accepted && !HasName(s.selectedImages, r[i].name))
      && (forall f | f in accepted && !HasName(s.selectedImages, f.name) :: f in r)
  {
    var r := DropSpec(s, accepted, rejections).selectedImages;
    var added := NewFiles(s.selectedImages, accepted);
    assert r == s.selectedImages + added;
    forall f | f in accepted && !HasName(s.selectedImages, f.name) ensures f in r {
      NewFilesComplete(s.selectedImages, accepted, f);
    }
  }

  /** A drop shows (and toasts) a message exactly when the enlarged selection exceeds the balance,
      naming the difference, and lists the rejected files' errors. */
  lemma DropMessage(s: ImageState, accepted: seq<LocalFile>, rejections: seq<Rejection>)
    ensures var r := DropSpec(s, accepted, rejections);
      var total := |s.selectedImages| + |NewFiles(s.selectedImages, accepted)|;
      && (r.creditsNeededMessage != "" <==> total > s.availableCredits)
      && (total > s.availableCredits ==>
            r.creditsNeededMessage == CreditsNeededMessage(total - s.availableCredits)
            && r.toasts == s.toasts + [r.creditsNeededMessage])
      && (total <= s.availableCredits ==> r.toasts == s.toasts)
      && r.rejectionMessages == RejectionMessages(rejections)
  {
  }

  /** Once the balance has loaded, Next is disabled exactly when nothing is selected or a
      credits message is showing. */
  lemma NextRule(s: ImageState)
    requires Valid(s) && !s.loadingCredits
    ensures NextDisabled(s) <==> |s.selectedImages| == 0 || s.creditsNeededMessage != ""
  {
  }

  class ImageStep {
    var selectedImages: seq<LocalFile>
    var availableCredits: nat
    var loadingCredits: bool
    var rejectionMessages: seq<string>
    var creditsNeededMessage: string
    var toasts: seq<string>

    function State(): ImageState
      reads this
    {
      ImageState(selectedImages, availableCredits, loadingCredits, rejectionMessages, creditsNeededMessage, toasts)
    }

    /** The first render, with whatever selection the wizard holds. */
    constructor(selected: seq<LocalFile>)
      ensures State() == ImageState(selected, 0, true, [], "", [])
      ensures Valid(State())
    {
      selectedImages, availableCredits, loadingCredits := selected, 0, true;
      rejectionMessages, creditsNeededMessage, toasts := [], "", [];
    }

    /** The credits check the effect runs once loading has finished. */
    method CheckCredits()
      modifies this
      ensures State() == CreditsCheck(old(State()))
    {
      if |selectedImages| > availableCredits {
        var m := CreditsNeededMessage(|selectedImages| - availableCredits);
        creditsNeededMessage, toasts := m, toasts + [m];
      } else {
        creditsNeededMessage := "";
      }
    }

    /** `fetchAvailableCredits` settles, then the credits effect runs. */
    method LoadCredits(fetched: Option<nat>)
      modifies this
      ensures State() == LoadSpec(old(State()), fetched)
    {
      if fetched.Some? {
        availableCredits := fetched.value;
      }
      loadingCredits := false;
      CheckCredits();
    }

    /** `onDrop`; the drop zone is only rendered once loading has finished. */
    method OnDrop(accepted: seq<LocalFile>, rejections: seq<Rejection>)
      requires !loadingCredits
      modifies this
      ensures State() == DropSpec(old(State()), accepted, rejections)
    {
      rejectionMessages, creditsNeededMessage := [], "";
      var newFiles := NewFiles(selectedImages, accepted);
      selectedImages := selectedImages + newFiles;
      CheckCredits();
      rejectionMessages := RejectionMessages(rejections);
    }

    /** The Reset button. */
    method Reset()
      modifies this
      ensures State() == ResetSpec(old(State()))
    {
      selectedImages, rejectionMessages, creditsNeededMessage := [], [], "";
    }
  }
}
