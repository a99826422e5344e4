/**
 * The optional wizard step that collects up to five videos, one credit per second. A drop that
 * would take the selection past five files is refused; otherwise the dropped videos whose names
 * are new are appended, the seconds and the credits of the whole order are totalled, and a message
 * appears when the order costs more than the balance.
 */
module VideoUpload {
  import opened Wrappers
  import opened Dropzone

  const MaxFileCount := 5
  const CapMessage := "You can upload up to 5 video files only."

  /** The image count and video selection (owned by the parent wizard) and the step's own state. */
  datatype VideoState = VideoState(
    imageCount: nat,
    selectedVideos: seq<LocalFile>,
    availableCredits: nat,
    loadingCredits: bool,
    totalVideoSeconds: int,
    rejectionMessages: seq<string>,
    creditsNeededMessage: string,
    stepSkipped: bool,
    toasts: seq<string>)

  /** `newDurations`: the duration of each newly dropped file under its name; when two dropped files
      share a name, the later one's duration is kept. */
  function DurationMap(files: seq<LocalFile>): (m: map<string, real>)
    ensures forall k :: k in m <==> HasName(files, k)
  {
    if |files| == 0 then map[]
    else
      var init := files[..|files| - 1];
      var m := DurationMap(init);
      assert forall k :: HasName(files, k) <==> HasName(init, k) || files[|files| - 1].name == k by {
        forall k ensures HasName(files, k) <==> HasName(init, k) || files[|files| - 1].name == k {
          if HasName(init, k) {
            var i :| 0 <= i < |init| && init[i].name == k;
            assert files[i].name == k;
          }
        }
      }
      m[files[|files| - 1].name := files[|files| - 1].duration]
  }

  /** `newDurations[file.name] || await getVideoDuration(file)`: without an entry, or with a zero
      entry, the file's own duration is read. */
  function ChargedDuration(f: LocalFile, durations: map<string, real>): real {
    if f.name in durations && durations[f.name] != 0.0 then durations[f.name] else f.duration
  }

  /** The seconds a drop totals over the whole selection, left to right. */
  function ChargedSum(files: seq<LocalFile>, durations: map<string, real>): real {
    if |files| == 0 then 0.0
    else ChargedSum(files[..|files| - 1], durations) + ChargedDuration(files[|files| - 1], durations)
  }

  /** Show and toast the shortfall when `needed` exceeds the balance; clear the message otherwise. */
  function CreditsCheck(s: VideoState, needed: int): VideoState {
    if needed > s.availableCredits then
      var m := CreditsNeededMessage(needed - s.availableCredits);
      s.(creditsNeededMessage := m, toasts := s.toasts + [m])
    else s.(creditsNeededMessage := "")
  }

  /** Record the floored seconds, then check the credits `Math.floor(images + seconds)`. */
  function Totalled(s: VideoState, seconds: real): VideoState {
    CreditsCheck(s.(totalVideoSeconds := seconds.Floor), (s.imageCount as real + seconds).Floor)
  }

  /** `onDrop`. The five-file cap counts the dropped files before the name filter. */
  function DropSpec(s: VideoState, accepted: seq<LocalFile>, rejections: seq<Rejection>): VideoState {
    if |s.selectedVideos| + |accepted| > MaxFileCount then
      s.(rejectionMessages := [], creditsNeededMessage := CapMessage, toasts := s.toasts + [CapMessage])
    else
      var added := NewFiles(s.selectedVideos, accepted);
      var updated := s.selectedVideos + added;
      var seconds := ChargedSum(updated, DurationMap(added));
      Totalled(s.(selectedVideos := updated, stepSkipped := false), seconds)
        .(rejectionMessages := RejectionMessages(rejections))
  }

  /** The effect on `availableCredits`: skipped while the balance is 0; otherwise the durations of
      the selection are read again and the totals and the message recomputed. */
  function RecalcSpec(s: VideoState): VideoState {
    if s.availableCredits == 0 then s
    else Totalled(s, SumDurations(s.selectedVideos))
  }

  /** The balance request settles (None when it threw), loading ends, and the effect runs when the
      balance changed. */
  function LoadSpec(s: VideoState, fetched: Option<nat>): VideoState {
    var t := s.(availableCredits := if fetched.Some? then fetched.value else s.availableCredits,
                loadingCredits := false);
    if t.availableCredits != s.availableCredits then RecalcSpec(t) else t
  }

  function ResetSpec(s: VideoState): VideoState {
    s.(selectedVideos := [], rejectionMessages := [], creditsNeededMessage := "", totalVideoSeconds := 0)
  }

  /** The Next button's click handler: leaving without videos marks the step as skipped. */
  function NextClickSpec(s: VideoState): VideoState {
    if |s.selectedVideos| == 0 then s.(stepSkipped := true) else s
  }

  predicate NextDisabled(s: VideoState) {
    s.totalVideoSeconds + s.imageCount > s.availableCredits && !s.stepSkipped
  }

  function ButtonLabel(s: VideoState): string {
    if |s.selectedVideos| == 0 && !s.stepSkipped then "Skip" else "Next"
  }

  /** At most five videos, and no seconds counted for an empty selection. */
  predicate Valid(s: VideoState) {
    |s.selectedVideos| <= MaxFileCount && (|s.selectedVideos| == 0 ==> s.totalVideoSeconds == 0)
  }

  /** Every handler keeps the selection within the cap; the cap is checked on the count before
      de-duplication, which is never smaller. */
  lemma DropKeepsValid(s: VideoState, accepted: seq<LocalFile>, rejections: seq<Rejection>)
    requires Valid(s)
    ensures Valid(DropSpec(s, accepted, rejections))
  {
    if |s.selectedVideos| + |accepted| <= MaxFileCount {
      var added := NewFiles(s.selectedVideos, accepted);
      if |s.selectedVideos + added| == 0 {
        assert s.selectedVideos + added == [];
      }
    }
  }

  /** Loading the balance, Reset and the Next click keep the state valid too. */
  lemma HandlersKeepValid(s: VideoState, fetched: Option<nat>)
    requires Valid(s)
    ensures Valid(LoadSpec(s, fetched)) && Valid(ResetSpec(s)) && Valid(NextClickSpec(s))
  {
    if |s.selectedVideos| == 0 {
      assert SumDurations(s.selectedVideos) == 0.0;
    }
  }

  /** A drop past the cap leaves the selection and the totals alone and shows the cap message. */
  lemma DropOverCapRefused(s: VideoState, accepted: seq<LocalFile>, rejections: seq<Rejection>)
    requires |s.selectedVideos| + |accepted| > MaxFileCount
    ensures var r := DropSpec(s, accepted, rejections);
      && r.selectedVideos == s.selectedVideos && r.totalVideoSeconds == s.totalVideoSeconds
      && r.creditsNeededMessage == CapMessage && r.rejectionMessages == []
  {
  }

  /** The credits a drop needs are the images plus the whole seconds: flooring the sum of the images
      and the seconds agrees with adding the image count to the floored seconds. The message
      appears exactly when that exceeds the balance, and names the difference. */
  lemma DropCredits(s: VideoState, accepted: seq<LocalFile>, rejections: seq<Rejection>)
    requires |s.selectedVideos| + |accepted| <= MaxFileCount
    ensures var r := DropSpec(s, accepted, rejections);
      var needed := s.imageCount + r.totalVideoSeconds;
      && (r.creditsNeededMessage != "" <==> needed > s.availableCredits)
      && (needed > s.availableCredits ==> r.creditsNeededMessage == CreditsNeededMessage(needed - s.availableCredits))
      && !r.stepSkipped
      && (r.creditsNeededMessage != "" <==> NextDisabled(r))
  {
    var added := NewFiles(s.selectedVideos, accepted);
    FloorShift(s.imageCount, ChargedSum(s.selectedVideos + added, DurationMap(added)));
  }

  /** The same rule holds after the balance loads. */
  lemma RecalcCredits(s: VideoState)
    requires s.availableCredits != 0
    ensures var r := RecalcSpec(s);
      var needed := s.imageCount + r.totalVideoSeconds;
      && r.totalVideoSeconds == SumDurations(s.selectedVideos).Floor
      && (r.creditsNeededMessage != "" <==> needed > s.availableCredits)
      && (needed > s.availableCredits ==> r.creditsNeededMessage == CreditsNeededMessage(needed - s.availableCredits))
  {
    FloorShift(s.imageCount, SumDurations(s.selectedVideos));
  }

  /** `HasName` on a list and its last element. */
  lemma HasNameLast(files: seq<LocalFile>, k: string)
    requires |files| > 0
    ensures HasName(files, k) <==> HasName(files[..|files| - 1], k) || files[|files| - 1].name == k
  {
    if HasName(files[..|files| - 1], k) {
      var i :| 0 <= i < |files| - 1 && files[..|files| - 1][i].name == k;
      assert files[i].name == k;
    }
  }

  /** No two files share a name. */
  predicate DistinctNames(files: seq<LocalFile>) {
    forall i, j | 0 <= i < j < |files| :: files[i].name != files[j].name
  }

  /** With distinct names, each file's entry holds its own duration. */
  lemma {:induction false} DurationMapOwn(files: seq<LocalFile>, i: nat)
    requires DistinctNames(files) && i < |files|
    ensures DurationMap(files)[files[i].name] == files[i].duration
    decreases |files|
  {
    var n := |files| - 1;
    if i < n {
      var init := files[..n];
      assert init[i] == files[i];
      DurationMapOwn(init, i);
    }
  }

  /** Summing charged durations file by file: equal summands give equal sums. */
  lemma {:induction false} ChargedSumOwn(files: seq<LocalFile>, durations: map<string, real>)
    requires forall i | 0 <= i < |files| :: ChargedDuration(files[i], durations) == files[i].duration
    ensures ChargedSum(files, durations) == SumDurations(files)
    decreases |files|
  {
    if |files| > 0 {
      var init := files[..|files| - 1];
      assert forall i | 0 <= i < |init| :: init[i] == files[i];
      ChargedSumOwn(init, durations);
    }
  }

  /** When the dropped files have distinct names, the drop totals every video's own duration. */
  lemma DistinctDropTotals(selected: seq<LocalFile>, accepted: seq<LocalFile>)
    requires DistinctNames(NewFiles(selected, accepted))
    ensures var added := NewFiles(selected, accepted);
      ChargedSum(selected + added, DurationMap(added)) == SumDurations(selected + added)
  {
    var added := NewFiles(selected, accepted);
    var all := selected + added;
    var m := DurationMap(added);
    forall i | 0 <= i < |all| ensures ChargedDuration(all[i], m) == all[i].duration {
      if i < |selected| {
        assert all[i] == selected[i];
        assert HasName(selected, all[i].name);
      } else {
        assert all[i] == added[i - |selected|];
        DurationMapOwn(added, i - |selected|);
      }
    }
    ChargedSumOwn(all, m);
  }

  /** Two dropped videos with the same name are both charged at the later one's duration: dropping
      "a.mp4" of 3 seconds and another "a.mp4" of 5 seconds on an empty selection counts 10
      seconds, not 8. */
  lemma SameNameDropOvercounts()
    ensures var first := LocalFile("a.mp4", "video/mp4", 1, 3.0);
      var second := LocalFile("a.mp4", "video/mp4", 1, 5.0);
      && NewFiles([], [first, second]) == [first, second]
      && SumDurations([first, second]) == 8.0
      && ChargedSum([first, second], DurationMap([first, second])) == 10.0
  {
    var first := LocalFile("a.mp4", "video/mp4", 1, 3.0);
    var second := LocalFile("a.mp4", "video/mp4", 1, 5.0);
    var both := [first, second];
    NewFilesAllFresh([], both);
    assert both[..1] == [first] && [first][..0] == [];
    assert SumDurations([first]) == 3.0;
    assert DurationMap([first]) == map[first.name := 3.0];
    assert DurationMap(both) == map[first.name := 5.0];
    assert ChargedSum([first], DurationMap(both)) == 5.0;
  }

  /** Once the step has been skipped, Next stays enabled and reads "Next". */
  lemma SkipEnablesNext(s: VideoState)
    requires |s.selectedVideos| == 0
    ensures !NextDisabled(NextClickSpec(s)) && ButtonLabel(NextClickSpec(s)) == "Next"
    ensures ButtonLabel(s) == "Skip" <==> !s.stepSkipped
  {
    assert |"Skip"| == |"Next"| && "Skip"[0] != "Next"[0];
  }

  class VideoStep {
    var imageCount: nat
    var selectedVideos: seq<LocalFile>
    var availableCredits: nat
    var loadingCredits: bool
    var totalVideoSeconds: int
    var rejectionMessages: seq<string>
    var creditsNeededMessage: string
    var stepSkipped: bool
    var toasts: seq<string>

    function State(): VideoState
      reads this
    {
      VideoState(imageCount, selectedVideos, availableCredits, loadingCredits, totalVideoSeconds,
        rejectionMessages, creditsNeededMessage, stepSkipped, toasts)
    }

    /** The first render, with the wizard's current selections. The effect on the balance runs on
        mount too, but the balance is still 0 and it does nothing. */
    constructor(images: nat, videos: seq<LocalFile>)
      ensures State() == VideoState(images, videos, 0, true, 0, [], "", false, [])
    {
      imageCount, selectedVideos, availableCredits, loadingCredits := images, videos, 0, true;
      totalVideoSeconds, rejectionMessages, creditsNeededMessage := 0, [], "";
      stepSkipped, toasts := false, [];
    }

    /** Store the totals of a durations loop and compare the credits with the balance. */
    method ApplyTotals(seconds: real, credits: real)
      requires credits == imageCount as real + seconds
      modifies this
      ensures State() == Totalled(old(State()), seconds)
    {
      var needed := credits.Floor;
      if needed > availableCredits {
        var m := CreditsNeededMessage(needed - availableCredits);
        totalVideoSeconds, creditsNeededMessage, toasts := seconds.Floor, m, toasts + [m];
      } else {
        totalVideoSeconds, creditsNeededMessage := seconds.Floor, "";
      }
    }

    /** The effect on `availableCredits`. */
    method Recalculate()
      modifies this
      ensures State() == RecalcSpec(old(State()))
    {
      if availableCredits != 0 {
        var seconds, credits := CreditTotals(imageCount, selectedVideos);
        ApplyTotals(seconds, credits);
      }
    }

    method LoadCredits(fetched: Option<nat>)
      modifies this
      ensures State() == LoadSpec(old(State()), fetched)
    {
      var before := availableCredits;
      if fetched.Some? {
        availableCredits := fetched.value;
      }
      loadingCredits := false;
      if availableCredits != before {
        Recalculate();
      }
    }

    /** `onDrop`, with each file's duration as the browser reports it; the drop zone is only
        rendered once loading has finished. */
    method OnDrop(accepted: seq<LocalFile>, rejections: seq<Rejection>)
      requires !loadingCredits
      modifies this
      ensures State() == DropSpec(old(State()), accepted, rejections)
    {
      if |selectedVideos| + |accepted| > MaxFileCount {
        rejectionMessages, creditsNeededMessage, toasts := [], CapMessage, toasts + [CapMessage];
      } else {
        // The message cleared on entry is rewritten by the credits check.
        AddFiles(accepted);
        rejectionMessages := RejectionMessages(rejections);
      }
    }

    /** The part of `onDrop` past the cap check. */
    method AddFiles(accepted: seq<LocalFile>)
      modifies this
      ensures var added := NewFiles(old(selectedVideos), accepted);
        State() == Totalled(old(State()).(selectedVideos := old(selectedVideos) + added, stepSkipped := false),
                            ChargedSum(old(selectedVideos) + added, DurationMap(added)))
    {
      var newFiles := NewFiles(selectedVideos, accepted);
      var newDurations := MeasureDurations(newFiles);
      var updated := selectedVideos + newFiles;
      var seconds, credits := DropTotals(imageCount, updated, newDurations);
      selectedVideos, stepSkipped := updated, false;
      ApplyTotals(seconds, credits);
    }

    method Reset()
      modifies this
      ensures State() == ResetSpec(old(State()))
    {
      selectedVideos, rejectionMessages, creditsNeededMessage, totalVideoSeconds := [], [], "", 0;
    }

    method ClickNext()
      modifies this
      ensures State() == NextClickSpec(old(State()))
    {
      if |selectedVideos| == 0 {
        stepSkipped := true;
      }
    }
  }

  /** The loop that fills `newDurations`. */
  method MeasureDurations(files: seq<LocalFile>) returns (durations: map<string, real>)
    ensures durations == DurationMap(files)
  {
    durations := map[];
    for i := 0 to |files|
      invariant durations == DurationMap(files[..i])
    {
      assert files[..i + 1][..i] == files[..i];
      durations := durations[files[i].name := files[i].duration];
    }
    assert files[..|files|] == files;
  }

  /** The loop over the enlarged selection, reading durations through `newDurations`. */
  method DropTotals(images: nat, videos: seq<LocalFile>, durations: map<string, real>) returns (seconds: real, credits: real)
    ensures seconds == ChargedSum(videos, durations)
    ensures credits == images as real + seconds
  {
    credits, seconds := images as real, 0.0;
    for i := 0 to |videos|
      invariant seconds == ChargedSum(videos[..i], durations)
      invariant credits == images as real + seconds
    {
      assert videos[..i + 1][..i] == videos[..i];
      var duration := ChargedDuration(videos[i], durations);
      seconds, credits := seconds + duration, credits + duration;
    }
    assert videos[..|videos|] == videos;
  }
}
