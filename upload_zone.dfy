/** The upload queue of client/components/upload-zone.tsx: the extension filter on
    dropped files, the queue edits, and the sequential upload loop with its progress
    arithmetic and its all-or-halt outcome. */
module Upload {
  import opened Records
  import opened Text

  /** A dropped file: its name and its size in bytes. */
  datatype FileEntry = FileEntry(name: string, size: nat)

  /** The extensions `onDrop` keeps, lower case and without the dot. */
  const SupportedExtensions: seq<string> := ["jpg", "jpeg", "png", "webp"]

  const RejectedMessage := "Some files were rejected. Only JPG, JPEG, PNG, and WEBP files are supported."

  const UploadFailedMessage := "Failed to upload images. Please try again."

  /** `file.name.split(".").pop()?.toLowerCase()`. */
  function ClientExtension(name: string): string
  {
    Lower(LastSegment(name, '.'))
  }

  /** The test of the `filter` in `onDrop`: a non-empty extension on the list. */
  predicate IsSupported(f: FileEntry)
  {
    var ext := ClientExtension(f.name);
    ext != "" && ext in SupportedExtensions
  }

  /** The extension is the lower-cased text after the last dot, or the whole name
      when it has no dot; a name ending in a dot has the empty extension and is
      rejected. */
  lemma ClientExtensionShape(name: string)
    ensures var seg := LastSegment(name, '.');
      && ClientExtension(name) == Lower(seg)
      && |seg| <= |name| && seg == name[|name| - |seg|..]
      && '.' !in seg
      && ('.' !in name ==> seg == name)
      && (|name| > 0 && name[|name| - 1] == '.' ==> ClientExtension(name) == "")
  {
    LastSegmentIsLongestFreeSuffix(name, '.');
  }

  /** `acceptedFiles.filter(...)`: the supported files, in drop order. */
  function SupportedFiles(files: seq<FileEntry>): (r: seq<FileEntry>)
    ensures |r| <= |files|
    ensures forall i :: 0 <= i < |r| ==> IsSupported(r[i])
  {
    Filter(files, IsSupported)
  }

  /** The filter keeps every supported file with its multiplicity and nothing else. */
  lemma SupportedFilesExact(files: seq<FileEntry>, f: FileEntry)
    ensures multiset(SupportedFiles(files))[f] == if IsSupported(f) then multiset(files)[f] else 0
  {
    FilterMultiset(files, IsSupported, f);
  }

  /** The filter keeps all the files exactly when every one of them is supported. */
  lemma SupportedFilesKeepsAll(files: seq<FileEntry>)
    ensures |SupportedFiles(files)| == |files| <==> forall i :: 0 <= i < |files| ==> IsSupported(files[i])
  {
    FilterKeepsAll(files, IsSupported);
  }

  /** The filter keeps the drop order: filtering a concatenation concatenates. */
  lemma SupportedFilesAppend(xs: seq<FileEntry>, ys: seq<FileEntry>)
    ensures SupportedFiles(xs + ys) == SupportedFiles(xs) + SupportedFiles(ys)
  {
    FilterAppend(xs, ys, IsSupported);
  }

  /** `prev.filter((_, i) => i !== index)`. */
  function RemoveAt<T>(s: seq<T>, index: int): (r: seq<T>)
    ensures 0 <= index < |s| ==> |r| == |s| - 1
    ensures !(0 <= index < |s|) ==> r == s
    decreases |s|
  {
    if s == [] then []
    else (if index == 0 then [] else [s[0]]) + RemoveAt(s[1..], index - 1)
  }

  /** Filtering out one position splices the sequence around it. */
  lemma {:induction false} RemoveAtSplice<T>(s: seq<T>, index: int)
    requires 0 <= index < |s|
    ensures RemoveAt(s, index) == s[..index] + s[index + 1..]
    decreases |s|
  {
    if index == 0 {
      assert RemoveAt(s, index) == RemoveAt(s[1..], -1);
    } else {
      RemoveAtSplice(s[1..], index - 1);
      assert s[..index] == [s[0]] + s[1..][..index - 1];
      assert s[index + 1..] == s[1..][index..];
    }
  }

  /** Removing position `index` keeps every other element in order: those before it
      stay put, those after it move down by one, and the removed one is the only
      element lost. */
  lemma RemoveAtKeepsOthers<T>(s: seq<T>, index: int)
    requires 0 <= index < |s|
    ensures var r := RemoveAt(s, index);
      && (forall i :: 0 <= i < index ==> r[i] == s[i])
      && (forall i :: index <= i < |r| ==> r[i] == s[i + 1])
      && multiset(r) + multiset{s[index]} == multiset(s)
  {
    RemoveAtSplice(s, index);
    SpliceKeepsOthers(s, index);
  }

  /** The facts above for the spliced sequence itself. */
  lemma SpliceKeepsOthers<T>(s: seq<T>, index: int)
    requires 0 <= index < |s|
    ensures var r := s[..index] + s[index + 1..];
      && (forall i :: 0 <= i < index ==> r[i] == s[i])
      && (forall i :: index <= i < |r| ==> r[i] == s[i + 1])
      && multiset(r) + multiset{s[index]} == multiset(s)
  {
    assert s == s[..index] + ([s[index]] + s[index + 1..]);
  }

  /** One upload-progress event from the HTTP client: bytes sent and bytes to send. */
  datatype ProgressEvent = ProgressEvent(loaded: nat, total: nat)

  /** An event with a known, positive total that does not overshoot it. */
  type ByteProgress = e: ProgressEvent | 0 < e.total && e.loaded <= e.total witness ProgressEvent(0, 1)

  /** `Math.round((loaded * 100) / total)`: rounds to nearest, halves upward. */
  function PercentCompleted(e: ByteProgress): (p: int)
    ensures 2 * e.total * p <= 200 * e.loaded + e.total < 2 * e.total * (p + 1)
    ensures 0 <= p <= 100
    ensures e.loaded == e.total ==> p == 100
  {
    var p := (200 * e.loaded + e.total) / (2 * e.total);
    PercentBounds(e.loaded, e.total, p);
    p
  }

  lemma PercentBounds(loaded: nat, total: nat, p: int)
    requires 0 < total && loaded <= total
    requires p == (200 * loaded + total) / (2 * total)
    ensures 2 * total * p <= 200 * loaded + total < 2 * total * (p + 1)
    ensures 0 <= p <= 100
    ensures loaded == total ==> p == 100
  {
    var d := 2 * total;
    var m := 200 * loaded + total;
    DivBounds(m, d, p);
    QuotientBetween(m, d, p, 0, 101);
    if loaded == total {
      QuotientBetween(m, d, p, 100, 101);
    }
  }

  /** The quotient of Euclidean division brackets the dividend. */
  lemma DivBounds(m: int, d: int, p: int)
    requires d > 0 && p == m / d
    ensures d * p <= m < d * (p + 1)
  {
    assert m == d * p + m % d;
    assert d * (p + 1) == d * p + d;
  }

  /** A quotient lies between any two bounds that bracket the dividend. */
  lemma QuotientBetween(m: int, d: int, p: int, lo: int, hi: int)
    requires d > 0 && d * p <= m < d * (p + 1)
    requires d * lo <= m < d * hi
    ensures lo <= p < hi
  {
    MulCancel(d, lo, p + 1);
    MulCancel(d, p, hi);
  }

  lemma MulCancel(d: int, a: int, b: int)
    requires d > 0 && d * a < d * b
    ensures a < b
  {
  }

  /** `((i + percentCompleted / 100) / files.length) * 100`. */
  function OverallProgress(i: int, percent: int, n: int): real
    requires n > 0
  {
    ((i as real + percent as real / 100.0) / n as real) * 100.0
  }

  /** Overall progress is the percentage of the queue that file `i` at `percent`
      stands for. */
  lemma OverallProgressValue(i: int, percent: int, n: int)
    requires n > 0
    ensures OverallProgress(i, percent, n) == (100.0 * i as real + percent as real) / n as real
  {
    var x := i as real + percent as real / 100.0;
    var nr := n as real;
    assert x * 100.0 == 100.0 * i as real + percent as real;
    assert (x / nr) * 100.0 == (x * 100.0) / nr;
  }

  /** Overall progress stays in [0, 100]. */
  lemma OverallProgressBounds(i: int, p: int, n: int)
    requires n > 0 && 0 <= i < n && 0 <= p <= 100
    ensures 0.0 <= OverallProgress(i, p, n) <= 100.0
  {
    var a := 100.0 * i as real + p as real;
    OverallProgressValue(i, p, n);
    DivideMonotone(0.0, a, n as real);
    DivideAtMost(a, 100.0, n as real);
  }

  /** Overall progress never decreases as the position in the queue advances, to a
      later file or to a higher percentage of the same file. */
  lemma OverallProgressMonotone(i: int, p: int, j: int, q: int, n: int)
    requires n > 0 && 0 <= p <= 100 && 0 <= q <= 100
    requires i < j || (i == j && p <= q)
    ensures OverallProgress(i, p, n) <= OverallProgress(j, q, n)
  {
    OverallProgressValue(i, p, n);
    OverallProgressValue(j, q, n);
    DivideMonotone(100.0 * i as real + p as real, 100.0 * j as real + q as real, n as real);
  }

  /** File `i` at 100% and file `i + 1` at 0% give the same overall progress. */
  lemma OverallProgressContinuous(i: int, n: int)
    requires n > 0
    ensures OverallProgress(i, 100, n) == OverallProgress(i + 1, 0, n)
  {
    OverallProgressValue(i, 100, n);
    OverallProgressValue(i + 1, 0, n);
  }

  lemma DivideAtMost(a: real, c: real, n: real)
    requires n > 0.0 && a <= c * n
    ensures a / n <= c
  {
  }

  lemma DivideMonotone(a: real, b: real, n: real)
    requires n > 0.0 && a <= b
    ensures a / n <= b / n
  {
    assert b / n - a / n == (b - a) / n;
  }

  /** What one upload does: the progress events it reports, then whether it
      succeeded (a failed upload rejects the promise). */
  datatype UploadAttempt = UploadAttempt(events: seq<ByteProgress>, succeeded: bool)

  /** The position of the first failing upload among the first `n`, or `n`. */
  function FirstFailure(attempts: nat -> UploadAttempt, from: nat, n: nat): (k: nat)
    requires from <= n
    ensures from <= k <= n
    ensures forall j :: from <= j < k ==> attempts(j).succeeded
    ensures k < n ==> !attempts(k).succeeded
    decreases n - from
  {
    if from == n then n
    else if !attempts(from).succeeded then from
    else FirstFailure(attempts, from + 1, n)
  }

  /** The reported progress values stay in [0, 100] and, between files, never go back. */
  predicate ProgressReportsValid(reported: seq<(nat, real)>, n: nat)
  {
    && (forall a :: 0 <= a < |reported| ==> reported[a].0 < n && 0.0 <= reported[a].1 <= 100.0)
    && (forall a, b :: 0 <= a < b < |reported| ==> reported[a].0 <= reported[b].0)
    && (forall a, b :: 0 <= a < b < |reported| && reported[a].0 < reported[b].0 ==>
          reported[a].1 <= reported[b].1)
  }

  /** The upload card's state. `onUploadSuccess` and the HTTP client are outside it:
      the method reports the callback as an out-parameter and takes the uploads'
      outcomes as a parameter. */
  class UploadZone {
    var files: seq<FileEntry>
    var uploading: bool
    var progress: real
    var error: Option<string>
    var success: bool

    constructor ()
      ensures files == [] && !uploading && progress == 0.0 && error == None && !success
    {
      files := [];
      uploading := false;
      progress := 0.0;
      error := None;
      success := false;
    }

    /** `onDrop(acceptedFiles)`: appends the supported files to the queue and sets the
        rejection message exactly when some dropped file was filtered out. */
    method OnDrop(acceptedFiles: seq<FileEntry>)
      modifies this`files, this`error
      ensures files == old(files) + SupportedFiles(acceptedFiles)
      ensures error == if |SupportedFiles(acceptedFiles)| != |acceptedFiles| then Some(RejectedMessage) else None
    {
      error := None;
      var supportedFiles := SupportedFiles(acceptedFiles);
      if |supportedFiles| != |acceptedFiles| {
        error := Some(RejectedMessage);
      }
      files := files + supportedFiles;
    }

    /** `removeFile(index)`, offered only while not uploading. */
    method RemoveFile(index: int)
      requires !uploading
      modifies this`files
      ensures files == RemoveAt(old(files), index)
    {
      files := RemoveAt(files, index);
    }

    /** The "Clear All" button, shown only while not uploading. */
    method ClearAll()
      requires !uploading
      modifies this`files
      ensures files == []
    {
      files := [];
    }

    /** `handleUpload()`: uploads the queue one file at a time, in order. All succeed:
        `success`, empty queue, `onUploadSuccess` called once. One fails: the error
        message, no later upload attempted, the queue kept. Not uploading afterwards
        either way; an empty queue changes nothing. `reported` lists, in order, each
        progress value set and the file it was set for; `progress` ends at the last
        of them. */
    method HandleUpload(attempts: nat -> UploadAttempt) returns (notified: bool, attempted: nat, ghost reported: seq<(nat, real)>)
      requires !uploading
      modifies this
      ensures old(files) == [] ==>
        && files == old(files) && uploading == old(uploading) && progress == old(progress)
        && error == old(error) && success == old(success)
        && !notified && attempted == 0 && reported == []
      ensures old(files) != [] ==>
        var n := |old(files)|;
        var k := FirstFailure(attempts, 0, n);
        && !uploading
        && attempted == (if k < n then k + 1 else n)
        && (k == n ==> success && files == [] && notified && error == None)
        && (k < n ==> !success && files == old(files) && !notified && error == Some(UploadFailedMessage))
        && reported == UploadReports(attempts, n, attempted)
        && progress == LastProgress(reported)
        && 0.0 <= progress <= 100.0
        && ProgressReportsValid(reported, n)
    {
      notified, attempted, reported := false, 0, [];
      if |files| == 0 {
        return;
      }
      uploading := true;
      progress := 0.0;
      error := None;
      success := false;
      var n := |files|;
      var failed;
      failed, attempted, reported := UploadFiles(attempts, n);
      UploadReportsValid(attempts, n, attempted);
      if !failed {
        success := true;
        files := [];
        notified := true;
      } else {
        error := Some(UploadFailedMessage);
      }
      uploading := false;
    }

    /** The `for` loop of `handleUpload` over a queue of `n` files: uploads them in
        order and stops at the first failure, which it reports. */
    method UploadFiles(attempts: nat -> UploadAttempt, n: nat)
      returns (failed: bool, attempted: nat, ghost reported: seq<(nat, real)>)
      requires n > 0 && progress == 0.0
      modifies this`progress
      ensures var k := FirstFailure(attempts, 0, n);
        && (failed <==> k < n)
        && attempted == (if k < n then k + 1 else n)
      ensures reported == UploadReports(attempts, n, attempted)
      ensures progress == LastProgress(reported) && 0.0 <= progress <= 100.0
    {
      reported := [];
      ghost var k := FirstFailure(attempts, 0, n);
      failed := false;
      var i := 0;
      while i < n && !failed
        invariant 0 <= i <= n
        invariant !failed ==> i <= k
        invariant failed ==> k < n && i == k + 1
        invariant reported == UploadReports(attempts, n, i)
        invariant progress == LastProgress(reported)
        invariant 0.0 <= progress <= 100.0
        decreases n - i, !failed
      {
        var attempt := attempts(i);
        ghost var reports := ReportProgress(attempt.events, i, n);
        assert UploadReports(attempts, n, i + 1) == reported + reports;
        LastProgressAppend(reported, reports);
        reported := reported + reports;
        if !attempt.succeeded {
          failed := true;
        }
        i := i + 1;
      }
      attempted := i;
    }

    /** The progress callback of one upload: each event sets `progress` to the
        overall progress of file `i` of `n` at that event's percentage. Returns the
        values set, in order; with no events `progress` is left as it was. */
    method ReportProgress(events: seq<ByteProgress>, i: nat, n: nat) returns (ghost reports: seq<(nat, real)>)
      requires i < n
      requires 0.0 <= progress <= 100.0
      modifies this`progress
      ensures reports == FileReports(events, i, n)
      ensures 0.0 <= progress <= 100.0
      ensures events == [] ==> progress == old(progress)
      ensures events != [] ==> progress == reports[|reports| - 1].1
    {
      reports := [];
      var e := 0;
      while e < |events|
        invariant 0 <= e <= |events| && |reports| == e
        invariant 0.0 <= progress <= 100.0
        invariant forall a :: 0 <= a < e ==> reports[a] == (i, OverallProgress(i, PercentCompleted(events[a]), n))
        invariant e == 0 ==> progress == old(progress)
        invariant e > 0 ==> progress == reports[e - 1].1
      {
        var percentCompleted := PercentCompleted(events[e]);
        var overallProgress := OverallProgress(i, percentCompleted, n);
        OverallProgressBounds(i, percentCompleted, n);
        progress := overallProgress;
        reports := reports + [(i, overallProgress)];
        e := e + 1;
      }
    }
  }

  /** The progress values the callback of file `i` of `n` sets, one per event, each
      paired with the file. */
  function FileReports(events: seq<ByteProgress>, i: nat, n: nat): (r: seq<(nat, real)>)
    requires n > 0
    ensures |r| == |events|
    ensures forall a :: 0 <= a < |r| ==> r[a] == (i, OverallProgress(i, PercentCompleted(events[a]), n))
  {
    seq(|events|, a requires 0 <= a < |events| => (i, OverallProgress(i, PercentCompleted(events[a]), n)))
  }

  /** All the progress values set while uploading files `0` to `m - 1` of `n`, in
      order. */
  function UploadReports(attempts: nat -> UploadAttempt, n: nat, m: nat): seq<(nat, real)>
    requires n > 0
    decreases m
  {
    if m == 0 then []
    else UploadReports(attempts, n, m - 1) + FileReports(attempts(m - 1).events, m - 1, n)
  }

  /** The progress shown after a run of reports: the last value set, or the 0 that
      `handleUpload` starts from. */
  function LastProgress(reported: seq<(nat, real)>): real
  {
    if reported == [] then 0.0 else reported[|reported| - 1].1
  }

  /** More reports leave the progress at the last of them, or unchanged if none. */
  lemma LastProgressAppend(reported: seq<(nat, real)>, reports: seq<(nat, real)>)
    ensures LastProgress(reported + reports) == if reports == [] then LastProgress(reported) else reports[|reports| - 1].1
  {
    if reports == [] {
      assert reported + reports == reported;
    }
  }

  /** The values set for file `i` lie in that file's band. */
  lemma FileReportsInBand(events: seq<ByteProgress>, i: nat, n: nat)
    requires i < n
    ensures InBand(FileReports(events, i, n), n)
  {
    var r := FileReports(events, i, n);
    forall a | 0 <= a < |r|
      ensures OverallProgress(i, 0, n) <= r[a].1 <= OverallProgress(i, 100, n)
    {
      var p := PercentCompleted(events[a]);
      OverallProgressMonotone(i, 0, i, p, n);
      OverallProgressMonotone(i, p, i, 100, n);
    }
  }

  /** The values set while uploading the first `m` files each lie in their own file's
      band, come file after file, and so stay in [0, 100] and never go back between
      files. */
  lemma {:induction false} UploadReportsValid(attempts: nat -> UploadAttempt, n: nat, m: nat)
    requires 0 < n && m <= n
    ensures var r := UploadReports(attempts, n, m);
      && InBand(r, n)
      && (forall a :: 0 <= a < |r| ==> r[a].0 < m)
      && (forall a, b :: 0 <= a < b < |r| ==> r[a].0 <= r[b].0)
      && ProgressReportsValid(r, n)
    decreases m
  {
    var r := UploadReports(attempts, n, m);
    if m > 0 {
      var before := UploadReports(attempts, n, m - 1);
      var reports := FileReports(attempts(m - 1).events, m - 1, n);
      UploadReportsValid(attempts, n, m - 1);
      FileReportsInBand(attempts(m - 1).events, m - 1, n);
      AppendReports(before, reports, m - 1, n);
      assert r == before + reports;
    }
    ReportsOrdered(r, n);
  }

  /** Progress reports that each lie in the band of their own file. */
  predicate InBand(reports: seq<(nat, real)>, n: nat)
    requires n > 0
  {
    forall a :: 0 <= a < |reports| ==>
      && reports[a].0 < n
      && OverallProgress(reports[a].0, 0, n) <= reports[a].1 <= OverallProgress(reports[a].0, 100, n)
  }

  /** Appending the reports of file `i` to those of the files before it keeps every
      report in its band and the files in queue order. */
  lemma AppendReports(reported: seq<(nat, real)>, reports: seq<(nat, real)>, i: nat, n: nat)
    requires n > 0
    requires InBand(reported, n) && InBand(reports, n)
    requires forall a :: 0 <= a < |reported| ==> reported[a].0 < i
    requires forall a :: 0 <= a < |reports| ==> reports[a].0 == i
    requires forall a, b :: 0 <= a < b < |reported| ==> reported[a].0 <= reported[b].0
    ensures var all := reported + reports;
      && InBand(all, n)
      && (forall a :: 0 <= a < |all| ==> all[a].0 < i + 1)
      && (forall a, b :: 0 <= a < b < |all| ==> all[a].0 <= all[b].0)
  {
    var all := reported + reports;
    assert forall a :: 0 <= a < |all| ==> all[a] == if a < |reported| then reported[a] else reports[a - |reported|];
  }

  /** The band of an earlier file lies below the band of a later one. */
  lemma BandsOrdered(fa: int, fb: int, n: int)
    requires n > 0 && fa < fb
    ensures OverallProgress(fa, 100, n) <= OverallProgress(fb, 0, n)
  {
    OverallProgressContinuous(fa, n);
    OverallProgressMonotone(fa + 1, 0, fb, 0, n);
  }

  /** Reports that each lie in their own file's band, files in queue order, are
      valid: in [0, 100] and never going back between files. */
  lemma ReportsOrdered(reported: seq<(nat, real)>, n: nat)
    requires n > 0
    requires InBand(reported, n)
    requires forall a, b :: 0 <= a < b < |reported| ==> reported[a].0 <= reported[b].0
    ensures ProgressReportsValid(reported, n)
  {
    forall a | 0 <= a < |reported|
      ensures 0.0 <= reported[a].1 <= 100.0
    {
      OverallProgressBounds(reported[a].0, 0, n);
      OverallProgressBounds(reported[a].0, 100, n);
    }
    forall a, b | 0 <= a < b < |reported| && reported[a].0 < reported[b].0
      ensures reported[a].1 <= reported[b].1
    {
      BandsOrdered(reported[a].0, reported[b].0, n);
    }
  }
}
