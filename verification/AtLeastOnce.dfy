/** The recorder and the rotator together.  An acknowledged event stays on disk or reaches a blob, through any
    interleaving of deliveries and flushes and whatever fails, unless a later delivery of the same event
    damages its file before a flush has taken it. */
module AtLeastOnce {
  import opened Options
  import opened Text
  import opened Paths
  import opened NdJson
  import opened LogRotate
  import opened RecorderPath

  // ----- Deliveries and flushes -----

  datatype Delivery = Delivery(kind: seq<Byte>, date: string, id: seq<Byte>, data: string)

  /** recordEvent writes a file for it. */
  predicate HasFile(d: Delivery) {
    d.kind != [] && d.id != []
  }

  function FileOf(d: Delivery): FilePath {
    EventFile(d.kind, d.date, d.id)
  }

  /** The recorder tells events apart by type, date and ID, not by their source. */
  predicate SameEvent(a: Delivery, b: Delivery) {
    a.kind == b.kind && a.date == b.date && a.id == b.id
  }

  datatype State = State(disk: Disk, blobs: Blobs)

  /** A call of recordEvent with its outcome, or a flush, successful or not, with what it left. */
  datatype Step = Try(d: Delivery, outcome: Outcome) | Flushed(disk: Disk, blobs: Blobs)

  /** What the contracts of Recorder.RecordEvent and Uploader.Flush allow. */
  ghost predicate Enabled(s: State, step: Step) {
    match step
    case Try(d, outcome) =>
      && IsDate(d.date)
      && (outcome.Partial? ==> outcome.part <= d.data)
      && (!HasFile(d) ==> outcome == Unchanged)
    case Flushed(disk, blobs) =>
      && (forall p :: p in disk ==> p in s.disk && disk[p] == s.disk[p])
      && (forall k :: k in s.blobs ==> k in blobs && blobs[k] == s.blobs[k])
      && NothingLost(s.disk, disk, blobs)
  }

  function Apply(s: State, step: Step): State {
    match step
    case Try(d, outcome) => s.(disk := AfterAttempt(s.disk, FileOf(d), d.data, outcome))
    case Flushed(disk, blobs) => State(disk, blobs)
  }

  ghost predicate Legal(s: State, run: seq<Step>)
    decreases |run|
  {
    run == [] || (Enabled(s, run[0]) && Legal(Apply(s, run[0]), run[1..]))
  }

  function After(s: State, run: seq<Step>): State
    decreases |run|
  {
    if run == [] then s else After(Apply(s, run[0]), run[1..])
  }

  /** The event's file holds exactly this delivery. */
  predicate OnDisk(s: State, d: Delivery) {
    FileOf(d) in s.disk && s.disk[FileOf(d)] == Regular(d.data)
  }

  // ----- The steps are what the recorder and the rotator do -----

  /** The recorder's receiver: one delivery is one step, and it is acknowledged exactly if nothing failed. */
  method Deliver(recorder: Recorder, d: Delivery, ghost blobs: Blobs) returns (failed: bool, ghost step: Step)
    requires IsDate(d.date) && recorder.host.Valid()
    modifies recorder, recorder.host
    ensures recorder.host.Valid() && step.Try? && step.d == d
    ensures Enabled(State(old(recorder.disk), blobs), step)
    ensures State(recorder.disk, blobs) == Apply(State(old(recorder.disk), blobs), step)
    ensures HasFile(d) ==> (!failed <==> step.outcome == Done)
    ensures !HasFile(d) ==> !failed
  {
    ghost var outcome, calls;
    failed, outcome, calls := recorder.RecordEvent(d.kind, d.date, d.id, d.data);
    step := Try(d, outcome);
  }

  /** One flush is one step, whether or not it fails. */
  method FlushOnce(uploader: Uploader, stamp: string) returns (failed: bool, ghost step: Step)
    requires Unused(uploader.blobs, stamp) && uploader.host.Valid()
    modifies uploader, uploader.host
    ensures uploader.host.Valid() && step.Flushed?
    ensures Enabled(State(old(uploader.disk), old(uploader.blobs)), step)
    ensures State(uploader.disk, uploader.blobs) == Apply(State(old(uploader.disk), old(uploader.blobs)), step)
  {
    var processed;
    ghost var calls;
    processed, failed, calls := uploader.Flush(stamp);
    step := Flushed(uploader.disk, uploader.blobs);
  }

  // ----- What other deliveries do to an event's file -----

  predicate Touches(step: Step, d: Delivery) {
    step.Try? && SameEvent(step.d, d) && step.outcome != Unchanged
  }

  /** The contents of the file after the step, if it is still there. */
  function Leaves(step: Step): Option<string>
    requires step.Try?
  {
    match step.outcome
    case Done => Some(step.d.data)
    case Partial(part) => Some(part)
    case _ => None
  }

  /** The step writes the file of `d` with the data of `d`. */
  predicate Restores(step: Step, d: Delivery) {
    Touches(step, d) && Leaves(step) == Some(d.data)
  }

  /** The step removes the file of `d`, shortens it, or writes other data to it. */
  predicate Damages(step: Step, d: Delivery) {
    Touches(step, d) && Leaves(step) != Some(d.data)
  }

  /** Some step of the run damages the file, and none after it restores it. */
  ghost predicate Damaged(d: Delivery, run: seq<Step>) {
    exists j :: 0 <= j < |run| && Damages(run[j], d) && forall l :: j < l < |run| ==> !Restores(run[l], d)
  }

  ghost predicate NeverRestored(d: Delivery, run: seq<Step>) {
    forall l :: 0 <= l < |run| ==> !Restores(run[l], d)
  }

  lemma FilesApart(a: Delivery, b: Delivery)
    requires HasFile(a) && HasFile(b) && IsDate(a.date) && IsDate(b.date) && !SameEvent(a, b)
    ensures FileOf(a) != FileOf(b)
  {
    if FileOf(a) == FileOf(b) {
      EventFileInjective(a.kind, a.date, a.id, b.kind, b.date, b.id);
    }
  }

  /** One step: an attempt at the event itself decides, one at another event changes nothing, and a flush takes
      the file away only into a blob. */
  lemma StepDecides(s: State, step: Step, d: Delivery)
    requires Enabled(s, step) && HasFile(d) && IsDate(d.date)
    ensures var s' := Apply(s, step);
            && (Restores(step, d) ==> OnDisk(s', d))
            && (Damages(step, d) ==> !OnDisk(s', d))
            && (OnDisk(s', d) ==> OnDisk(s, d) || Restores(step, d))
            && (OnDisk(s, d) && !Damages(step, d) ==> OnDisk(s', d) || Recorded(s'.blobs, d.data))
            && (Recorded(s.blobs, d.data) ==> Recorded(s'.blobs, d.data))
  {
    match step
    case Try(other, outcome) =>
      if HasFile(other) && !SameEvent(other, d) {
        FilesApart(other, d);
      }
    case Flushed(disk, blobs) =>
      if Recorded(s.blobs, d.data) {
        var k :| k in s.blobs && Contains(s.blobs[k], d.data);
        assert Contains(blobs[k], d.data);
      }
      if OnDisk(s, d) {
        assert IsRegular(s.disk, FileOf(d));
      }
  }

  /** A later damage stands in the longer run too. */
  lemma DamagedLater(d: Delivery, run: seq<Step>)
    requires run != [] && Damaged(d, run[1..])
    ensures Damaged(d, run)
  {
    var rest := run[1..];
    var j :| 0 <= j < |rest| && Damages(rest[j], d) && forall l :: j < l < |rest| ==> !Restores(rest[l], d);
    forall l | j + 1 < l < |run|
      ensures !Restores(run[l], d)
    {
      assert run[l] == rest[l - 1];
    }
    assert run[j + 1] == rest[j];
  }

  lemma {:induction false} SafeOrDamaged(s: State, d: Delivery, run: seq<Step>)
    requires Legal(s, run) && HasFile(d) && IsDate(d.date)
    ensures var end := After(s, run);
            || OnDisk(end, d) || Recorded(end.blobs, d.data) || Damaged(d, run)
            || (!OnDisk(s, d) && !Recorded(s.blobs, d.data) && NeverRestored(d, run))
    decreases |run|
  {
    if run == [] {
    } else {
      var next, rest := Apply(s, run[0]), run[1..];
      StepDecides(s, run[0], d);
      SafeOrDamaged(next, d, rest);
      if Damaged(d, rest) {
        DamagedLater(d, run);
      } else if NeverRestored(d, rest) {
        assert forall l :: 0 < l < |run| ==> run[l] == rest[l - 1];
      }
    }
  }

  lemma {:induction false} StaysAway(s: State, d: Delivery, run: seq<Step>)
    requires Legal(s, run) && HasFile(d) && IsDate(d.date) && !OnDisk(s, d) && NeverRestored(d, run)
    ensures !OnDisk(After(s, run), d)
    decreases |run|
  {
    if run == [] {
    } else {
      StepDecides(s, run[0], d);
      assert !Restores(run[0], d);
      assert forall l :: 0 <= l < |run[1..]| ==> run[1..][l] == run[l + 1];
      StaysAway(Apply(s, run[0]), d, run[1..]);
    }
  }

  lemma {:induction false} DamagedIsNotOnDisk(s: State, d: Delivery, run: seq<Step>)
    requires Legal(s, run) && HasFile(d) && IsDate(d.date) && Damaged(d, run)
    ensures !OnDisk(After(s, run), d)
    decreases |run|
  {
    var j :| 0 <= j < |run| && Damages(run[j], d) && forall l :: j < l < |run| ==> !Restores(run[l], d);
    var next, rest := Apply(s, run[0]), run[1..];
    assert forall l :: 0 <= l < |rest| ==> rest[l] == run[l + 1];
    if j == 0 {
      StepDecides(s, run[0], d);
      StaysAway(next, d, rest);
    } else {
      assert Damages(rest[j - 1], d);
      DamagedIsNotOnDisk(next, d, rest);
    }
  }

  // ----- Acknowledged events -----

  /** Once a delivery is acknowledged, then over every run of further deliveries and flushes: it is on disk or
      in a blob, or its file was damaged and not restored; and if no blob has it, it is on disk exactly when
      the file was not so damaged. */
  lemma AcknowledgedIsSafeIff(start: State, d: Delivery, run: seq<Step>)
    requires HasFile(d) && Enabled(start, Try(d, Done)) && Legal(Apply(start, Try(d, Done)), run)
    ensures var end := After(Apply(start, Try(d, Done)), run);
            && (OnDisk(end, d) || Recorded(end.blobs, d.data) || Damaged(d, run))
            && (!Recorded(end.blobs, d.data) ==> (OnDisk(end, d) <==> !Damaged(d, run)))
  {
    var s := Apply(start, Try(d, Done));
    SafeOrDamaged(s, d, run);
    if Damaged(d, run) {
      DamagedIsNotOnDisk(s, d, run);
    }
  }

  /** The condition is needed: an event that was acknowledged, and whose redelivery then fails, can be gone from
      the disk with no blob to show for it. */
  lemma FailedRedeliveryLosesEvent(d: Delivery)
    requires HasFile(d) && IsDate(d.date)
    ensures var run := [Try(d, Done), Try(d, Gone)];
            Legal(State(map[], map[]), run) && After(State(map[], map[]), run) == State(map[], map[])
  {
    var empty, run := State(map[], map[]), [Try(d, Done), Try(d, Gone)];
    var written := Apply(empty, run[0]);
    assert written.disk - {FileOf(d)} == map[];
    assert run[1..] == [Try(d, Gone)];
    assert Apply(written, Try(d, Gone)) == empty;
    assert After(empty, []) == empty && Legal(empty, []);
    assert After(written, [Try(d, Gone)]) == empty && Legal(written, [Try(d, Gone)]);
  }

  /** The failed redelivery is delivered again, and an attempt that is acknowledged makes good all damage. */
  lemma RetryRestores(d: Delivery, run: seq<Step>)
    requires HasFile(d)
    ensures !Damaged(d, run + [Try(d, Done)])
  {
    var longer := run + [Try(d, Done)];
    assert Restores(longer[|run|], d);
  }

  lemma OnlyFile(d: Delivery, part: string, files: seq<string>)
    requires Distinct(files)
    requires forall f :: f in files <==> IsRegular(map[FileOf(d) := Regular(part)], FilePath(FileOf(d).dir, f))
    ensures files == [FileOf(d).name]
  {
    var path := FileOf(d);
    assert path == FilePath(path.dir, path.name);
    assert path.name in files;
    forall f | f in files
      ensures f == path.name
    {
      assert IsRegular(map[path := Regular(part)], FilePath(path.dir, f));
    }
    assert forall i :: 0 <= i < |files| ==> files[i] == path.name by {
      forall i | 0 <= i < |files|
        ensures files[i] == path.name
      {
        assert files[i] in files;
      }
    }
    if |files| > 1 {
      DistinctAt(files, 0, 1);
    }
  }

  /** Nor does a flush help when it meets a shortened file: it uploads the beginning, takes the file away, and the
      blob lacks the acknowledged lines. */
  lemma ShortenedFileIsUploaded(d: Delivery, part: string, blobs: Blobs, stamp: string)
    requires FlushedInto(map[FileOf(d) := Regular(part)], blobs, stamp)
    requires |Lines(part)| < |Lines(d.data)|
    ensures var blob := FilePath(FileOf(d).dir, stamp);
            blob in blobs && blobs[blob] == Combined([part]) && !Contains(blobs[blob], d.data)
  {
    var found, dir := map[FileOf(d) := Regular(part)], FileOf(d).dir;
    assert IsRegular(found, FileOf(d));
    assert DirBlob(found, blobs, stamp, dir);
    var files :| BlobOf(files, found, blobs, stamp, dir);
    OnlyFile(d, part, files);
    assert Datas(found, dir, files) == [part];
    CombinedLines([part]);
    assert PerFile([part]) == [Lines(part)];
    assert Flatten([Lines(part)]) == Lines(part) + Flatten([]);
  }

  // ----- Through the rotator's whole run -----

  ghost predicate OnlyTries(run: seq<Step>) {
    forall i :: 0 <= i < |run| ==> run[i].Try?
  }

  /** The disk after deliveries alone. */
  function TriedOn(disk: Disk, tries: seq<Step>): Disk {
    After(State(disk, map[]), tries).disk
  }

  /** The disk the deliveries before the i-th flush started from. */
  function LeftBefore(first: Disk, rounds: seq<Round>, i: nat): Disk
    requires i <= |rounds|
  {
    if i == 0 then first else rounds[i - 1].left
  }

  /** The disk a select saw is the one the flush before it left, after further deliveries. */
  ghost predicate Delivered(
    first: Disk, initial: Disk, script: seq<Wake>, rounds: seq<Round>, tries: seq<seq<Step>>)
    requires |rounds| <= |script| + 1
  {
    && |tries| == |rounds|
    && forall i :: 0 <= i < |rounds| ==>
         && OnlyTries(tries[i]) && Legal(State(LeftBefore(first, rounds, i), map[]), tries[i])
         && FoundBy(initial, script, i) == TriedOn(LeftBefore(first, rounds, i), tries[i])
  }

  /** The k-th delivery was acknowledged, and its file not damaged for good before the next flush. */
  ghost predicate Acknowledged(tries: seq<Step>, k: nat)
    requires k < |tries|
  {
    && tries[k].Try? && HasFile(tries[k].d) && tries[k].outcome == Done
    && !Damaged(tries[k].d, tries[k + 1..])
  }

  lemma {:induction false} TriesKeepBlobs(s: State, tries: seq<Step>)
    requires OnlyTries(tries)
    ensures After(s, tries).blobs == s.blobs
    decreases |tries|
  {
    if tries == [] {
    } else {
      assert forall i :: 0 <= i < |tries[1..]| ==> tries[1..][i] == tries[i + 1];
      TriesKeepBlobs(Apply(s, tries[0]), tries[1..]);
    }
  }

  lemma {:induction false} RunSplits(s: State, run: seq<Step>, k: nat)
    requires k <= |run| && Legal(s, run)
    ensures Legal(s, run[..k]) && Legal(After(s, run[..k]), run[k..])
    ensures After(s, run) == After(After(s, run[..k]), run[k..])
    decreases k
  {
    if k == 0 {
      assert run[k..] == run;
    } else {
      RunSplits(Apply(s, run[0]), run[1..], k - 1);
      assert run[..k][1..] == run[1..][..k - 1] && run[1..][k - 1..] == run[k..];
    }
  }

  /** What was acknowledged before a flush is what the flush finds. */
  lemma AcknowledgedIsFound(disk: Disk, tries: seq<Step>, k: nat)
    requires k < |tries| && OnlyTries(tries) && Legal(State(disk, map[]), tries) && Acknowledged(tries, k)
    ensures var d := tries[k].d;
            FileOf(d) in TriedOn(disk, tries) && TriedOn(disk, tries)[FileOf(d)] == Regular(d.data)
  {
    var s, d := State(disk, map[]), tries[k].d;
    RunSplits(s, tries, k);
    TriesKeepBlobs(s, tries);
    var start, rest := After(s, tries[..k]), tries[k..];
    assert rest[0] == Try(d, Done) && rest[1..] == tries[k + 1..];
    AcknowledgedIsSafeIff(start, d, rest[1..]);
  }

  /** Uploader.Run, with deliveries between its flushes: every event acknowledged before a completed flush is
      whole in a blob of its own type and date.  When Run has stopped, its last flush is the one that followed
      the cancellation, so that is every event acknowledged before the cancellation was seen. */
  lemma RunUploadsEverything(
    first: Disk, initial: Disk, script: seq<Wake>, stamps: seq<string>, rounds: seq<Round>,
    tries: seq<seq<Step>>, blobs: Blobs, i: nat, k: nat)
    requires Follow(rounds, initial, script, stamps) && AllDone(rounds, blobs)
    requires Delivered(first, initial, script, rounds, tries)
    requires i < |rounds| && k < |tries[i]| && Acknowledged(tries[i], k)
    ensures var d := tries[i][k].d;
            var blob := FilePath(FileOf(d).dir, stamps[i]);
            blob in blobs && Contains(blobs[blob], d.data)
  {
    var d := tries[i][k].d;
    AcknowledgedIsFound(LeftBefore(first, rounds, i), tries[i], k);
    assert RoundDone(rounds[i], blobs);
    FoundFileIsInItsBlob(rounds[i].found, blobs, rounds[i].stamp, FileOf(d));
  }

  /** Two events share a blob directory exactly when they have the same type and date. */
  lemma BlobIsOfTypeAndDate(a: Delivery, b: Delivery)
    requires HasFile(a) && HasFile(b) && IsDate(a.date) && IsDate(b.date)
    ensures FileOf(a).dir == FileOf(b).dir <==> a.kind == b.kind && a.date == b.date
  {
    if FileOf(a).dir == FileOf(b).dir {
      EventFileInjective(a.kind, a.date, a.id, b.kind, b.date, a.id);
    }
  }
}
