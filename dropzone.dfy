/**
 * What the react-dropzone callbacks of the upload steps work on: the browser's `File` objects, the
 * rejected files with their error messages, and the name-based de-duplication every step applies
 * before appending dropped files to its selection.
 */
module Dropzone {
  import opened JsText

  /** A browser `File`. The media duration the steps read through a `<video>` element is carried
      with the file; sizes are whole bytes. */
  datatype LocalFile = LocalFile(name: string, mimeType: string, size: nat, duration: real)

  /** A `FileRejection`: the file and the message of each of its errors, in order. */
  datatype Rejection = Rejection(file: LocalFile, errors: seq<string>)

  /** `files.some(f => f.name === name)` */
  predicate HasName(files: seq<LocalFile>, name: string) {
    exists i | 0 <= i < |files| :: files[i].name == name
  }

  /** The dropped files whose names are not already selected, in drop order. */
  function NewFiles(selected: seq<LocalFile>, accepted: seq<LocalFile>): (r: seq<LocalFile>)
    ensures |r| <= |accepted|
    ensures forall i | 0 <= i < |r| :: r[i] in accepted && !HasName(selected, r[i].name)
  {
    if |accepted| == 0 then []
    else
      var rest := NewFiles(selected, accepted[1..]);
      assert forall i | 0 <= i < |rest| :: rest[i] in accepted by {
        forall i | 0 <= i < |rest| ensures rest[i] in accepted {
          assert rest[i] in accepted[1..];
        }
      }
      if HasName(selected, accepted[0].name) then rest else [accepted[0]] + rest
  }

  /** Every dropped file whose name is not selected yet survives the filter. */
  lemma {:induction false} NewFilesComplete(selected: seq<LocalFile>, accepted: seq<LocalFile>, f: LocalFile)
    requires f in accepted && !HasName(selected, f.name)
    ensures f in NewFiles(selected, accepted)
    decreases |accepted|
  {
    if f != accepted[0] {
      assert f in accepted[1..];
      NewFilesComplete(selected, accepted[1..], f);
    }
  }

  /** Filtering distributes over concatenation, so survivors keep their relative drop order. */
  lemma {:induction false} NewFilesAppend(selected: seq<LocalFile>, a: seq<LocalFile>, b: seq<LocalFile>)
    ensures NewFiles(selected, a + b) == NewFiles(selected, a) + NewFiles(selected, b)
    decreases |a|
  {
    if |a| > 0 {
      assert (a + b)[1..] == a[1..] + b;
      NewFilesAppend(selected, a[1..], b);
    } else {
      assert a + b == b;
    }
  }

  /** A drop whose names are all new is appended whole, duplicates within the drop included. */
  lemma {:induction false} NewFilesAllFresh(selected: seq<LocalFile>, accepted: seq<LocalFile>)
    requires forall i | 0 <= i < |accepted| :: !HasName(selected, accepted[i].name)
    ensures NewFiles(selected, accepted) == accepted
    decreases |accepted|
  {
    if |accepted| > 0 {
      NewFilesAllFresh(selected, accepted[1..]);
      assert accepted == [accepted[0]] + accepted[1..];
    }
  }

  /** `errors.map(e => `${file.name}: ${e.message}`)` */
  function ErrorLines(name: string, errors: seq<string>): (r: seq<string>)
    ensures |r| == |errors|
    ensures forall i | 0 <= i < |errors| :: r[i] == name + ": " + errors[i]
  {
    if |errors| == 0 then [] else [name + ": " + errors[0]] + ErrorLines(name, errors[1..])
  }

  /** The number of (file, error) pairs. */
  function ErrorCount(rejections: seq<Rejection>): nat {
    if |rejections| == 0 then 0 else |rejections[0].errors| + ErrorCount(rejections[1..])
  }

  /** `fileRejections.flatMap(({ file, errors }) => errors.map(…))`: one line per (file, error)
      pair, grouped by file in rejection order. */
  function RejectionMessages(rejections: seq<Rejection>): (r: seq<string>)
    ensures |r| == ErrorCount(rejections)
  {
    if |rejections| == 0 then []
    else ErrorLines(rejections[0].file.name, rejections[0].errors) + RejectionMessages(rejections[1..])
  }

  /** The messages of a longer list of rejections extend those of its prefix. */
  lemma {:induction false} RejectionMessagesAppend(a: seq<Rejection>, b: seq<Rejection>)
    ensures RejectionMessages(a + b) == RejectionMessages(a) + RejectionMessages(b)
    decreases |a|
  {
    if |a| > 0 {
      assert (a + b)[1..] == a[1..] + b;
      RejectionMessagesAppend(a[1..], b);
    } else {
      assert a + b == b;
    }
  }

  /** The j-th error of a single rejected file is reported as `name: message`. */
  lemma RejectionMessagesSingle(r: Rejection)
    ensures RejectionMessages([r]) == ErrorLines(r.file.name, r.errors)
  {
    assert [r][1..] == [];
  }

  /** Σ durations, summed left to right as the steps' `for … of` loops do. */
  function SumDurations(files: seq<LocalFile>): real {
    if |files| == 0 then 0.0 else SumDurations(files[..|files| - 1]) + files[|files| - 1].duration
  }

  /** Durations are non-negative. */
  predicate DurationsValid(files: seq<LocalFile>) {
    forall i | 0 <= i < |files| :: files[i].duration >= 0.0
  }

  lemma {:induction false} SumDurationsNonNegative(files: seq<LocalFile>)
    requires DurationsValid(files)
    ensures SumDurations(files) >= 0.0
    decreases |files|
  {
    if |files| > 0 {
      SumDurationsNonNegative(files[..|files| - 1]);
    }
  }

  lemma {:induction false} SumDurationsAppend(a: seq<LocalFile>, b: seq<LocalFile>)
    ensures SumDurations(a + b) == SumDurations(a) + SumDurations(b)
    decreases |b|
  {
    if |b| == 0 {
      assert a + b == a;
    } else {
      assert (a + b)[..|a + b| - 1] == a + b[..|b| - 1];
      SumDurationsAppend(a, b[..|b| - 1]);
    }
  }

  /** `Math.floor` of a whole number plus a real: the whole number passes through. */
  lemma FloorShift(n: int, x: real)
    ensures (n as real + x).Floor == n + x.Floor
  {
    var f := x.Floor;
    assert f as real <= x < f as real + 1.0;
    assert (n + f) as real <= n as real + x < (n + f) as real + 1.0;
  }

  /** The message both upload steps show and toast when a selection costs more than the balance. */
  function CreditsNeededMessage(shortfall: int): (m: string)
    ensures |m| > 0
  {
    IntToString(shortfall) + " more credit(s) needed to continue. Please purchase more credits."
  }

  /** The credit-totalling loop of the video and review steps: start from one credit per image and
      add each video's duration to both the running seconds and the running credits. */
  method CreditTotals(images: nat, videos: seq<LocalFile>) returns (seconds: real, credits: real)
    ensures seconds == SumDurations(videos)
    ensures credits == images as real + seconds
  {
    credits, seconds := images as real, 0.0;
    var i := 0;
    while i < |videos|
      invariant 0 <= i <= |videos|
      invariant seconds == SumDurations(videos[..i])
      invariant credits == images as real + seconds
    {
      assert videos[..i + 1][..i] == videos[..i];
      seconds, credits := seconds + videos[i].duration, credits + videos[i].duration;
      i := i + 1;
    }
    assert videos[..i] == videos;
  }
}
