/** The log rotator: walk the source directory, upload each directory's files as one blob, delete
    what was uploaded, and do it once more after a shutdown signal.

    Every call that can fail in the original is put to a host (Calls.Host) and may fail at any point; the contracts
    hold for every host, and say which failed calls make an operation fail.  A path relative to the source directory
    is kept as the directory and name that filepath.Split gives; Paths.SplitPathUnique shows that the two determine
    the path. */
module LogRotate {
  import opened Text
  import opened Calls
  import opened Paths
  import opened NdJson

  const MAX_UPLOAD_ATTEMPT: nat := 3

  datatype Entry = Regular(data: string) | NonRegular

  type Disk = map<FilePath, Entry>
  type Blobs = map<FilePath, string>

  ghost predicate IsRegular(disk: Disk, path: FilePath) {
    path in disk && disk[path].Regular?
  }

  ghost function RegularPaths(disk: Disk): set<FilePath> {
    set p | p in disk && disk[p].Regular?
  }

  ghost predicate Unused(blobs: Blobs, stamp: string) {
    forall k :: k in blobs ==> k.name != stamp
  }

  /** Some committed blob holds every line of `data`, in order and together. */
  ghost predicate Recorded(blobs: Blobs, data: string) {
    exists k :: k in blobs && Contains(blobs[k], data)
  }

  // ----- Grouping the walked files by directory -----

  type Groups = map<string, seq<string>>

  ghost predicate Distinct(files: seq<string>) {
    forall f :: f in multiset(files) ==> multiset(files)[f] == 1
  }

  lemma DistinctAt(files: seq<string>, i: nat, j: nat)
    requires Distinct(files) && i < j < |files|
    ensures files[i] != files[j]
  {
    var front, back := files[..j], files[j..];
    assert files == front + back;
    assert files[i] == front[i] && files[j] == back[0];
    assert files[i] in multiset(front) && files[j] in multiset(back);
    assert multiset(files)[files[j]] == multiset(front)[files[j]] + multiset(back)[files[j]];
    assert files[j] in multiset(files);
  }

  ghost predicate Grouped(groups: Groups, walked: set<FilePath>) {
    && (forall dir :: dir in groups ==> groups[dir] != [])
    && (forall dir, f :: dir in groups && f in groups[dir] ==> FilePath(dir, f) in walked)
    && (forall p :: p in walked ==> p.dir in groups && p.name in groups[p.dir])
  }

  /** The groups hold the paths of `walked`, each in exactly one group and once. */
  ghost predicate Partition(groups: Groups, walked: set<FilePath>) {
    Grouped(groups, walked) && forall dir :: dir in groups ==> Distinct(groups[dir])
  }

  /** The callback of WalkDir, for one regular file. */
  function AddToGroup(groups: Groups, path: FilePath): Groups {
    var dir, name := path.dir, path.name;
    groups[dir := if dir in groups then groups[dir] + [name] else [name]]
  }

  lemma AddKeepsPartition(groups: Groups, walked: set<FilePath>, path: FilePath)
    requires Partition(groups, walked) && path !in walked
    ensures Partition(AddToGroup(groups, path), walked + {path})
  {
    var dir, name := path.dir, path.name;
    var groups' := AddToGroup(groups, path);
    forall d, f | d in groups' && f in groups'[d]
      ensures FilePath(d, f) in walked + {path}
    {
      if d == dir && f != name {
        assert dir in groups && f in groups[dir];
      }
    }
    if dir in groups {
      assert name !in groups[dir];
      assert Distinct(groups[dir]);
      assert name !in multiset(groups[dir]);
    }
  }

  // ----- The contents of a group -----

  ghost predicate AllRegular(disk: Disk, dir: string, files: seq<string>) {
    forall i :: 0 <= i < |files| ==> IsRegular(disk, FilePath(dir, files[i]))
  }

  /** The files of one group, in upload order. */
  ghost function Datas(disk: Disk, dir: string, files: seq<string>): (datas: seq<string>)
    requires AllRegular(disk, dir, files)
  {
    seq(|files|, i requires 0 <= i < |files| => disk[FilePath(dir, files[i])].data)
  }

  ghost predicate AllScannable(datas: seq<string>) {
    forall i :: 0 <= i < |datas| ==> Scannable(datas[i])
  }

  /** No file on the disk has a line that is too long for the scanner. */
  ghost predicate DiskScannable(disk: Disk) {
    forall p :: IsRegular(disk, p) ==> Scannable(disk[p].data)
  }

  lemma UnscannableFileIsOnDisk(disk: Disk, dir: string, files: seq<string>)
    requires AllRegular(disk, dir, files) && !AllScannable(Datas(disk, dir, files))
    ensures !DiskScannable(disk)
  {
    var datas := Datas(disk, dir, files);
    var i :| 0 <= i < |datas| && !Scannable(datas[i]);
    assert IsRegular(disk, FilePath(dir, files[i]));
  }

  // ----- What a flush promises -----

  /** Every regular file of `before` is still on disk unchanged or whole in a committed blob. */
  ghost predicate NothingLost(before: Disk, after: Disk, blobs: Blobs) {
    forall p :: IsRegular(before, p) ==>
      (p in after && after[p] == before[p]) || Recorded(blobs, before[p].data)
  }

  /** Blobs of other stamps are untouched; new ones carry this stamp. */
  ghost predicate OnlyAdds(before: Blobs, after: Blobs, stamp: string) {
    && (forall k :: k in before ==> k in after && after[k] == before[k])
    && (forall k :: k in after ==> k in before || k.name == stamp)
  }

  /** The group's blob is exactly the normalised lines of its files, and its files are gone. */
  ghost predicate GroupDone(before: Disk, after: Disk, blobs: Blobs, stamp: string, dir: string, files: seq<string>) {
    && AllRegular(before, dir, files)
    && FilePath(dir, stamp) in blobs
    && blobs[FilePath(dir, stamp)] == Combined(Datas(before, dir, files))
    && forall i :: 0 <= i < |files| ==>
         FilePath(dir, files[i]) !in after && Scannable(before[FilePath(dir, files[i])].data)
  }

  /** The directory's blob holds exactly the lines of the directory's regular files, which are `files`. */
  ghost predicate BlobOf(files: seq<string>, before: Disk, blobs: Blobs, stamp: string, dir: string) {
    && Distinct(files)
    && (forall f :: f in files <==> IsRegular(before, FilePath(dir, f)))
    && AllRegular(before, dir, files)
    && FilePath(dir, stamp) in blobs
    && blobs[FilePath(dir, stamp)] == Combined(Datas(before, dir, files))
  }

  ghost predicate DirBlob(before: Disk, blobs: Blobs, stamp: string, dir: string) {
    exists files :: BlobOf(files, before, blobs, stamp, dir)
  }

  /** One such blob for the directory of every regular file. */
  ghost predicate FlushedInto(before: Disk, blobs: Blobs, stamp: string) {
    forall p {:trigger DirBlob(before, blobs, stamp, p.dir)} ::
      IsRegular(before, p) ==> DirBlob(before, blobs, stamp, p.dir)
  }

  /** Why a flush fails: a line that is too long; a call that fails, other than a close of a blob; or three failed
      closes of one directory's blob. */
  ghost predicate FlushFails(found: Disk, calls: seq<Call>) {
    !DiskScannable(found) || !OnlyClosesFail(calls) || exists blob :: GaveUp(Closes(calls, blob))
  }

  /** One flush: the disk as it found it, the disk as it left it, its timestamp, and the calls it made. */
  datatype Round = Round(found: Disk, left: Disk, stamp: string, calls: seq<Call>)

  function AllCalls(rounds: seq<Round>): seq<Call> {
    if rounds == [] then [] else AllCalls(rounds[..|rounds| - 1]) + rounds[|rounds| - 1].calls
  }

  ghost predicate RoundDone(r: Round, blobs: Blobs) {
    && FlushedInto(r.found, blobs, r.stamp)
    && !FlushFails(r.found, r.calls)
    && RegularPaths(r.left) == {}
    && forall p :: p in r.left ==> p in r.found && r.left[p] == r.found[p]
  }

  /** A failed flush had a reason, and every file it found is safe. */
  ghost predicate RoundFailed(r: Round, blobs: Blobs) {
    FlushFails(r.found, r.calls) && NothingLost(r.found, r.left, blobs)
  }

  ghost predicate AllDone(rounds: seq<Round>, blobs: Blobs) {
    forall i :: 0 <= i < |rounds| ==> RoundDone(rounds[i], blobs)
  }

  lemma DirBlobSurvives(found: Disk, before: Blobs, after: Blobs, stamp: string, later: string, dir: string)
    requires DirBlob(found, before, stamp, dir) && OnlyAdds(before, after, later)
    ensures DirBlob(found, after, stamp, dir)
  {
    var files :| BlobOf(files, found, before, stamp, dir);
    assert BlobOf(files, found, after, stamp, dir);
  }

  /** What a flush put into its blobs stays there through every later one. */
  lemma RoundsSurvive(rounds: seq<Round>, before: Blobs, after: Blobs, stamp: string)
    requires AllDone(rounds, before) && OnlyAdds(before, after, stamp)
    ensures AllDone(rounds, after)
  {
    forall i | 0 <= i < |rounds|
      ensures RoundDone(rounds[i], after)
    {
      var r := rounds[i];
      assert RoundDone(r, before);
      forall p | IsRegular(r.found, p)
        ensures DirBlob(r.found, after, r.stamp, p.dir)
      {
        DirBlobSurvives(r.found, before, after, r.stamp, stamp, p.dir);
      }
    }
  }

  /** Every regular file a completed flush found is whole in the blob of its directory. */
  lemma FoundFileIsInItsBlob(found: Disk, blobs: Blobs, stamp: string, p: FilePath)
    requires FlushedInto(found, blobs, stamp) && IsRegular(found, p)
    ensures FilePath(p.dir, stamp) in blobs && Contains(blobs[FilePath(p.dir, stamp)], found[p].data)
  {
    assert DirBlob(found, blobs, stamp, p.dir);
    var files :| BlobOf(files, found, blobs, stamp, p.dir);
    assert FilePath(p.dir, p.name) == p;
    var k :| 0 <= k < |files| && files[k] == p.name;
    CombinedContainsEach(Datas(found, p.dir, files), k);
  }

  ghost predicate Extends(before: Blobs, after: Blobs) {
    forall k :: k in before ==> k in after && after[k] == before[k]
  }

  /** The stamps all differ, and those from the n-th on are not in use. */
  ghost predicate StampsLeft(blobs: Blobs, stamps: seq<string>, n: nat) {
    Distinct(stamps) && forall i :: n <= i < |stamps| ==> Unused(blobs, stamps[i])
  }

  lemma UseStamp(initial: Blobs, before: Blobs, after: Blobs, stamps: seq<string>, n: nat)
    requires n < |stamps| && StampsLeft(before, stamps, n)
    requires Extends(initial, before) && OnlyAdds(before, after, stamps[n])
    ensures StampsLeft(after, stamps, n + 1) && Extends(initial, after)
  {
    forall i | n < i < |stamps|
      ensures Unused(after, stamps[i])
    {
      DistinctAt(stamps, n, i);
    }
  }

  lemma BlobRecordsFile(before: Disk, blobs: Blobs, stamp: string, dir: string, files: seq<string>, i: nat)
    requires AllRegular(before, dir, files) && i < |files|
    requires FilePath(dir, stamp) in blobs && blobs[FilePath(dir, stamp)] == Combined(Datas(before, dir, files))
    ensures Recorded(blobs, before[FilePath(dir, files[i])].data)
  {
    var datas := Datas(before, dir, files);
    CombinedContainsEach(datas, i);
    assert datas[i] == before[FilePath(dir, files[i])].data;
  }

  /** A walked file of a finished group is recorded. */
  lemma DoneFileRecorded(groups: Groups, before: Disk, after: Disk, blobs: Blobs, stamp: string, p: FilePath)
    requires Grouped(groups, RegularPaths(before)) && IsRegular(before, p)
    requires p.dir in groups && GroupDone(before, after, blobs, stamp, p.dir, groups[p.dir])
    ensures Recorded(blobs, before[p].data) && p !in after && Scannable(before[p].data)
  {
    var dir := p.dir;
    assert p in RegularPaths(before);
    var i :| 0 <= i < |groups[dir]| && groups[dir][i] == p.name;
    assert FilePath(dir, groups[dir][i]) == p;
    BlobRecordsFile(before, blobs, stamp, dir, groups[dir], i);
  }

  /** What uploading one directory does, whether or not it succeeds: only files of the group leave the
      disk, only the group's blob changes, and nothing is deleted, and no success reported, unless
      the whole group is in the blob. */
  ghost predicate DirUploaded(
    dir: string, files: seq<string>, stamp: string, before: Disk, after: Disk, blobs: Blobs, blobs': Blobs,
    processed: nat, failed: bool)
    requires AllRegular(before, dir, files)
  {
    && (forall p :: p in after ==> p in before && after[p] == before[p])
    && (forall p :: p in before && p !in after ==> exists j :: 0 <= j < |files| && p == FilePath(dir, files[j]))
    && blobs'.Keys <= blobs.Keys + {FilePath(dir, stamp)}
    && (forall k :: k in blobs && k != FilePath(dir, stamp) ==> k in blobs' && blobs'[k] == blobs[k])
    && (!failed || after != before ==>
          FilePath(dir, stamp) in blobs' && blobs'[FilePath(dir, stamp)] == Combined(Datas(before, dir, files)))
    && (!failed ==> |after| + |files| == |before| && processed == |files|)
    && (!failed ==> forall j :: 0 <= j < |files| ==>
          FilePath(dir, files[j]) !in after && Scannable(before[FilePath(dir, files[j])].data))
  }

  /** Half-way through a flush: the directories of `todo` are still whole on disk, the others done. */
  ghost predicate FlushInv(
    groups: Groups, before: Disk, disk: Disk, blobs0: Blobs, blobs: Blobs, stamp: string, todo: set<string>)
  {
    && todo <= groups.Keys
    && (forall p :: p in disk ==> p in before && disk[p] == before[p])
    && (forall p :: p in before && p !in disk ==> IsRegular(before, p) && p.dir !in todo)
    && OnlyAdds(blobs0, blobs, stamp)
    && (forall d :: d in groups && d !in todo ==> GroupDone(before, disk, blobs, stamp, d, groups[d]))
  }

  lemma GroupStillOnDisk(groups: Groups, before: Disk, disk: Disk, blobs0: Blobs, blobs: Blobs, stamp: string,
                         todo: set<string>, dir: string)
    requires Grouped(groups, RegularPaths(before)) && dir in todo
    requires FlushInv(groups, before, disk, blobs0, blobs, stamp, todo)
    ensures AllRegular(before, dir, groups[dir]) && AllRegular(disk, dir, groups[dir])
    ensures Datas(disk, dir, groups[dir]) == Datas(before, dir, groups[dir])
  {
  }

  lemma OtherGroupsStayDone(
    groups: Groups, before: Disk, mid: Disk, after: Disk, blobs0: Blobs, blobs: Blobs, blobs': Blobs, stamp: string,
    todo: set<string>, dir: string, processed: nat, failed: bool, d: string)
    requires Grouped(groups, RegularPaths(before)) && dir in todo && d in groups && d !in todo
    requires FlushInv(groups, before, mid, blobs0, blobs, stamp, todo)
    requires AllRegular(mid, dir, groups[dir])
    requires DirUploaded(dir, groups[dir], stamp, mid, after, blobs, blobs', processed, failed)
    ensures GroupDone(before, after, blobs', stamp, d, groups[d])
  {
    assert GroupDone(before, mid, blobs, stamp, d, groups[d]);
    assert FilePath(d, stamp) != FilePath(dir, stamp);
  }

  lemma GoneBelongsToGroup(groups: Groups, walked: set<FilePath>, before: Disk, after: Disk, dir: string, p: FilePath)
    requires Grouped(groups, walked) && dir in groups && p in before && p !in after
    requires forall p :: p in before && p !in after ==>
               exists j :: 0 <= j < |groups[dir]| && p == FilePath(dir, groups[dir][j])
    ensures p.dir == dir && p in walked
  {
  }

  lemma UploadKeepsFlushInv(
    groups: Groups, before: Disk, mid: Disk, after: Disk, blobs0: Blobs, blobs: Blobs, blobs': Blobs, stamp: string,
    todo: set<string>, dir: string, processed: nat)
    requires Unused(blobs0, stamp) && Grouped(groups, RegularPaths(before)) && dir in todo
    requires FlushInv(groups, before, mid, blobs0, blobs, stamp, todo)
    requires AllRegular(mid, dir, groups[dir])
    requires DirUploaded(dir, groups[dir], stamp, mid, after, blobs, blobs', processed, false)
    ensures FlushInv(groups, before, after, blobs0, blobs', stamp, todo - {dir})
  {
    GroupStillOnDisk(groups, before, mid, blobs0, blobs, stamp, todo, dir);
    forall d | d in groups && d !in todo - {dir}
      ensures GroupDone(before, after, blobs', stamp, d, groups[d])
    {
      if d != dir {
        OtherGroupsStayDone(groups, before, mid, after, blobs0, blobs, blobs', stamp, todo, dir, processed, false, d);
      }
    }
    forall p | p in before && p !in after
      ensures IsRegular(before, p) && p.dir !in todo - {dir}
    {
      if p in mid {
        GoneBelongsToGroup(groups, RegularPaths(before), mid, after, dir, p);
      }
    }
  }

  lemma UploadFailureLosesNothing(
    groups: Groups, before: Disk, mid: Disk, after: Disk, blobs0: Blobs, blobs: Blobs, blobs': Blobs, stamp: string,
    todo: set<string>, dir: string, processed: nat)
    requires Unused(blobs0, stamp) && Grouped(groups, RegularPaths(before)) && dir in todo
    requires FlushInv(groups, before, mid, blobs0, blobs, stamp, todo)
    requires AllRegular(mid, dir, groups[dir])
    requires DirUploaded(dir, groups[dir], stamp, mid, after, blobs, blobs', processed, true)
    ensures NothingLost(before, after, blobs') && OnlyAdds(blobs0, blobs', stamp)
  {
    GroupStillOnDisk(groups, before, mid, blobs0, blobs, stamp, todo, dir);
    forall p | IsRegular(before, p) && p !in after
      ensures Recorded(blobs', before[p].data)
    {
      assert p in RegularPaths(before);
      if p in mid {
        var j :| 0 <= j < |groups[dir]| && p == FilePath(dir, groups[dir][j]);
        BlobRecordsFile(before, blobs', stamp, dir, groups[dir], j);
      } else {
        assert p.dir in groups;
        OtherGroupsStayDone(
          groups, before, mid, after, blobs0, blobs, blobs', stamp, todo, dir, processed, true, p.dir);
        DoneFileRecorded(groups, before, after, blobs', stamp, p);
      }
    }
  }

  lemma AllGroupsDone(groups: Groups, before: Disk, after: Disk, blobs: Blobs, stamp: string)
    requires Grouped(groups, RegularPaths(before))
    requires forall d :: d in groups ==> GroupDone(before, after, blobs, stamp, d, groups[d])
    ensures NothingLost(before, after, blobs)
    ensures forall p :: IsRegular(before, p) ==> p !in after && Scannable(before[p].data)
  {
    forall p | IsRegular(before, p)
      ensures p !in after && Recorded(blobs, before[p].data) && Scannable(before[p].data)
    {
      assert p in RegularPaths(before);
      DoneFileRecorded(groups, before, after, blobs, stamp, p);
    }
  }

  lemma GroupsGiveDirBlobs(groups: Groups, before: Disk, after: Disk, blobs: Blobs, stamp: string)
    requires Partition(groups, RegularPaths(before))
    requires forall d :: d in groups ==> GroupDone(before, after, blobs, stamp, d, groups[d])
    ensures FlushedInto(before, blobs, stamp)
  {
    forall p | IsRegular(before, p)
      ensures DirBlob(before, blobs, stamp, p.dir)
    {
      var files := groups[p.dir];
      assert p in RegularPaths(before);
      assert GroupDone(before, after, blobs, stamp, p.dir, files);
      forall f
        ensures f in files <==> IsRegular(before, FilePath(p.dir, f))
      {
        assert IsRegular(before, FilePath(p.dir, f)) <==> FilePath(p.dir, f) in RegularPaths(before);
      }
      assert BlobOf(files, before, blobs, stamp, p.dir);
    }
  }

  lemma AllRegularGone(before: Disk, after: Disk)
    requires forall p :: p in after ==> p in before && after[p] == before[p]
    requires forall p :: p in before ==> (p !in after <==> IsRegular(before, p))
    ensures RegularPaths(after) == {} && |before| == |after| + |RegularPaths(before)|
  {
    assert before.Keys == after.Keys + RegularPaths(before);
    assert after.Keys !! RegularPaths(before);
    assert |after.Keys + RegularPaths(before)| == |after.Keys| + |RegularPaths(before)|;
  }

  // ----- The calls of a flush -----

  /** The calls of one attempt: a writer opened, the files copied, the blob closed. */
  lemma AttemptCalls(blob: FilePath, start: seq<Call>, written: seq<Call>, closed: bool)
    requires ClosesNoBlob(start) && AllOk(start) && ClosesNoBlob(written)
    ensures var calls := start + written + [Call(CloseBlob(blob), closed)];
            ClosesOnly(calls, blob, [closed]) && (OnlyClosesFail(calls) <==> AllOk(written))
  {
    AllOkAppend(start, written);
    OneMoreCall(start + written, Call(CloseBlob(blob), closed));
    NoCloses(start + written, blob);
    OneClose(blob, closed);
    MoreCloses(start + written, [Call(CloseBlob(blob), closed)], blob, [], [closed]);
    assert OnlyClosesFail(start + written) <==> AllOk(start + written);
  }

  lemma AttemptOutcome(i: nat, closed: bool)
    requires i < MAX_UPLOAD_ATTEMPT
    ensures var closes := seq(i, _ => false) + [closed];
            && (closed ==> Closed(closes) && !GaveUp(closes))
            && (!closed ==> closes == seq(i + 1, _ => false) && (GaveUp(closes) <==> i == MAX_UPLOAD_ATTEMPT - 1))
  {
  }

  lemma DeletionCalls(calls: seq<Call>, removed: seq<Call>, blob: FilePath, closes: seq<bool>)
    requires ClosesOnly(calls, blob, closes) && OnlyClosesFail(calls) && ClosesNoBlob(removed)
    ensures ClosesOnly(calls + removed, blob, closes)
    ensures OnlyClosesFail(calls + removed) <==> AllOk(removed)
  {
    AllOkAppend(calls, removed);
    NoCloses(removed, blob);
    MoreCloses(calls, removed, blob, closes, []);
    assert closes + [] == closes;
    assert OnlyClosesFail(removed) <==> AllOk(removed);
  }

  /** Half-way through a flush: only the blobs of finished directories were closed, each in time. */
  ghost predicate ClosedSoFar(groups: Groups, calls: seq<Call>, stamp: string, todo: set<string>) {
    forall blob: FilePath :: ClosedInTime(groups, calls, stamp, todo, blob)
  }

  ghost predicate ClosedInTime(
    groups: Groups, calls: seq<Call>, stamp: string, todo: set<string>, blob: FilePath)
  {
    if blob.dir in groups && blob.dir !in todo && blob.name == stamp then Closed(Closes(calls, blob))
    else Closes(calls, blob) == []
  }

  lemma NoneClosed(groups: Groups, calls: seq<Call>, stamp: string)
    requires ClosesNoBlob(calls)
    ensures ClosedSoFar(groups, calls, stamp, groups.Keys)
  {
    forall blob: FilePath
      ensures Closes(calls, blob) == []
    {
      ClosesNothing(calls, blob);
    }
  }

  lemma OneMoreClosed(groups: Groups, calls: seq<Call>, more: seq<Call>, stamp: string, todo: set<string>,
                      dir: string, closes: seq<bool>)
    requires ClosedSoFar(groups, calls, stamp, todo) && dir in todo && dir in groups
    requires ClosesOnly(more, FilePath(dir, stamp), closes) && Closed(closes)
    ensures ClosedSoFar(groups, calls + more, stamp, todo - {dir})
  {
    forall blob: FilePath
      ensures ClosedInTime(groups, calls + more, stamp, todo - {dir}, blob)
    {
      ClosesAppend(calls, more, blob);
      assert ClosedInTime(groups, calls, stamp, todo, blob);
      if blob == FilePath(dir, stamp) {
        assert Closes(calls + more, blob) == closes;
      } else {
        assert Closes(calls + more, blob) == Closes(calls, blob);
      }
    }
  }

  lemma UploadFailureFailsFlush(groups: Groups, before: Disk, dir: string, stamp: string, todo: set<string>,
                                calls: seq<Call>, more: seq<Call>, closes: seq<bool>)
    requires dir in groups && dir in todo && AllRegular(before, dir, groups[dir])
    requires ClosedSoFar(groups, calls, stamp, todo) && ClosesOnly(more, FilePath(dir, stamp), closes)
    requires !AllScannable(Datas(before, dir, groups[dir])) || !OnlyClosesFail(more) || GaveUp(closes)
    ensures FlushFails(before, calls + more)
  {
    var blob := FilePath(dir, stamp);
    if !AllScannable(Datas(before, dir, groups[dir])) {
      UnscannableFileIsOnDisk(before, dir, groups[dir]);
    }
    AllOkAppend(calls, more);
    ClosesAppend(calls, more, blob);
    assert ClosedInTime(groups, calls, stamp, todo, blob);
    assert Closes(calls + more, blob) == closes;
  }

  /** The blob of every directory with a regular file was closed, at the latest at the third attempt. */
  ghost predicate AllClosedInTime(found: Disk, calls: seq<Call>, stamp: string) {
    forall p :: IsRegular(found, p) ==> Closed(Closes(calls, FilePath(p.dir, stamp)))
  }

  lemma AllClosed(groups: Groups, before: Disk, calls: seq<Call>, stamp: string)
    requires Grouped(groups, RegularPaths(before)) && DiskScannable(before)
    requires OnlyClosesFail(calls) && ClosedSoFar(groups, calls, stamp, {})
    ensures !FlushFails(before, calls) && AllClosedInTime(before, calls, stamp)
  {
    forall p | IsRegular(before, p)
      ensures Closed(Closes(calls, FilePath(p.dir, stamp)))
    {
      assert p in RegularPaths(before);
      assert ClosedInTime(groups, calls, stamp, {}, FilePath(p.dir, stamp));
    }
    forall blob: FilePath
      ensures !GaveUp(Closes(calls, blob))
    {
      assert ClosedInTime(groups, calls, stamp, {}, blob);
    }
  }

  // ----- The flush loop -----

  /** What the select between two flushes observed, and the disk at that moment: the recorder may have
      added, rewritten or removed files in the meantime. */
  datatype Wake = Interval(disk: Disk) | Cancelled(disk: Disk)

  /** The disk that the i-th flush finds: at first the initial one, later what the select before it saw. */
  function FoundBy(initial: Disk, script: seq<Wake>, i: nat): Disk
    requires i <= |script|
  {
    if i == 0 then initial else script[i - 1].disk
  }

  /** The rounds are the first flushes of the run, each with a stamp of its own. */
  ghost predicate Follow(rounds: seq<Round>, initial: Disk, script: seq<Wake>, stamps: seq<string>) {
    && |rounds| <= |script| + 1 && |rounds| <= |stamps|
    && forall i :: 0 <= i < |rounds| ==> rounds[i].found == FoundBy(initial, script, i) && rounds[i].stamp == stamps[i]
  }

  /** The first `n` selects saw the interval pass. */
  ghost predicate Ticking(script: seq<Wake>, n: int)
    requires n <= |script|
  {
    forall i :: 0 <= i < n ==> script[i].Interval?
  }

  lemma OneMoreRound(rounds: seq<Round>, round: Round, initial: Disk, script: seq<Wake>, stamps: seq<string>)
    requires Follow(rounds, initial, script, stamps) && |rounds| <= |script| && |rounds| < |stamps|
    requires round.found == FoundBy(initial, script, |rounds|) && round.stamp == stamps[|rounds|]
    ensures Follow(rounds + [round], initial, script, stamps)
  {
  }

  /** The completed flushes of a run so far, and what became of the blobs it started with. */
  ghost predicate RunInv(
    rounds: seq<Round>, first: Disk, script: seq<Wake>, stamps: seq<string>, initial: Blobs, blobs: Blobs)
  {
    && Follow(rounds, first, script, stamps)
    && Extends(initial, blobs) && StampsLeft(blobs, stamps, |rounds|) && AllDone(rounds, blobs)
  }

  lemma RunGrows(rounds: seq<Round>, round: Round, first: Disk, script: seq<Wake>, stamps: seq<string>,
                 initial: Blobs, before: Blobs, blobs: Blobs)
    requires RunInv(rounds, first, script, stamps, initial, before) && |rounds| <= |script| && |rounds| < |stamps|
    requires round.found == FoundBy(first, script, |rounds|) && round.stamp == stamps[|rounds|]
    requires OnlyAdds(before, blobs, round.stamp) && AllDone(rounds + [round], blobs)
    ensures RunInv(rounds + [round], first, script, stamps, initial, blobs)
  {
    OneMoreRound(rounds, round, first, script, stamps);
    UseStamp(initial, before, blobs, stamps, |rounds|);
  }

  lemma AllCallsAppend(rounds: seq<Round>, round: Round)
    ensures AllCalls(rounds + [round]) == AllCalls(rounds) + round.calls
  {
    assert (rounds + [round])[..|rounds|] == rounds;
  }

  /** `StillRunning`: the script ended before the loop did. */
  datatype RunResult = Stopped | FlushFailed | StillRunning

  // ----- Uploading -----

  class Writer {
    const host: Host
    const blob: FilePath
    var written: string

    constructor (host: Host, blob: FilePath)
      ensures this.host == host && this.blob == blob && written == ""
    {
      this.host, this.blob, written := host, blob, "";
    }

    /** Write may fail after any part of the line. */
    method Write(line: string) returns (ok: bool)
      requires host.Valid()
      modifies this, host
      ensures host.Valid() && host.log == old(host.log) + [Call(WriteBlob(blob), ok)]
      ensures ok ==> written == old(written) + line
    {
      ok := host.Ask(WriteBlob(blob));
      if ok {
        written := written + line;
      } else {
        var part: int := *;
        if 0 <= part <= |line| {
          written := written + line[..part];
        }
      }
    }
  }

  /** The next raw line adds itself to the normalised text, unless it is blank. */
  lemma KeptGrows(raw: seq<string>, i: nat)
    requires i < |raw|
    ensures Render(Kept(raw[..i + 1])) ==
            Render(Kept(raw[..i])) + if Trim(raw[i]) == "" then "" else Trim(raw[i]) + "\n"
  {
    var line := Trim(raw[i]);
    assert raw[..i + 1] == raw[..i] + [raw[i]];
    KeptAppend(raw[..i], [raw[i]]);
    assert Kept([raw[i]]) == if line == "" then [] else [line];
    if line == "" {
      assert Kept(raw[..i + 1]) == Kept(raw[..i]);
    } else {
      RenderAppend(Kept(raw[..i]), [line]);
      assert Render([line]) == line + "\n";
    }
  }

  /** The scanner's loop: each raw line is trimmed and, unless blank, written with a newline.  It succeeds exactly
      if every read and write does and no line is too long. */
  method CopyLines(writer: Writer, path: FilePath, raw: seq<string>) returns (ok: bool, ghost calls: seq<Call>)
    requires writer.host.Valid()
    modifies writer, writer.host
    ensures writer.host.Valid() && writer.host.log == old(writer.host.log) + calls && ClosesNoBlob(calls)
    ensures ok <==> AllOk(calls) && forall j :: 0 <= j < |raw| ==> |raw[j]| < MAX_LINE
    ensures ok ==> writer.written == old(writer.written) + Render(Kept(raw))
  {
    var host := writer.host;
    ghost var text := Render(Kept(raw[..0]));
    calls := [];
    var i := 0;
    while i < |raw|
      invariant 0 <= i <= |raw|
      invariant host.Valid() && host.log == old(writer.host.log) + calls && ClosesNoBlob(calls) && AllOk(calls)
      invariant forall j :: 0 <= j < i ==> |raw[j]| < MAX_LINE
      invariant writer.written == old(writer.written) + text && text == Render(Kept(raw[..i]))
    {
      ok := host.Ask(ReadFile(path));
      OneMoreCall(calls, Call(ReadFile(path), ok));
      LogGrows(old(writer.host.log), calls, [Call(ReadFile(path), ok)]);
      calls := calls + [Call(ReadFile(path), ok)];
      if !ok {
        return false, calls;
      }
      if |raw[i]| >= MAX_LINE {
        return false, calls;   // bufio.ErrTooLong
      }
      var line := Trim(raw[i]);
      KeptGrows(raw, i);
      i := i + 1;
      if line == "" {
        continue;
      }
      line := line + "\n";
      assert old(writer.written) + text + line == old(writer.written) + (text + line);
      text := text + line;
      ok := writer.Write(line);
      OneMoreCall(calls, Call(WriteBlob(writer.blob), ok));
      LogGrows(old(writer.host.log), calls, [Call(WriteBlob(writer.blob), ok)]);
      calls := calls + [Call(WriteBlob(writer.blob), ok)];
      if !ok {
        return false, calls;
      }
    }
    assert raw[..i] == raw;
    return true, calls;
  }

  /** Copies the non-blank trimmed lines of one file to the writer.  It succeeds exactly if opening, reading,
      writing and closing do, and no line is too long. */
  method BufferWriteToBucket(writer: Writer, path: FilePath, data: string) returns (ok: bool, ghost calls: seq<Call>)
    requires writer.host.Valid()
    modifies writer, writer.host
    ensures writer.host.Valid() && writer.host.log == old(writer.host.log) + calls && ClosesNoBlob(calls)
    ensures ok <==> AllOk(calls) && Scannable(data)
    ensures ok ==> writer.written == old(writer.written) + Render(Lines(data))
  {
    var host := writer.host;
    ok := host.Ask(OpenFile(path));
    OneCall(Call(OpenFile(path), ok));
    calls := [Call(OpenFile(path), ok)];
    if !ok {
      return false, calls;
    }
    ghost var copied;
    ok, copied := CopyLines(writer, path, Split(data, '\n'));
    var closed := host.Ask(CloseFile(path));
    AllOkAppend(calls, copied);
    OneMoreCall(calls + copied, Call(CloseFile(path), closed));
    calls := calls + copied + [Call(CloseFile(path), closed)];
    ok := ok && closed;
  }

  lemma OneMoreData(datas: seq<string>, i: nat)
    requires i < |datas|
    ensures Combined(datas[..i + 1]) == Combined(datas[..i]) + Render(Lines(datas[i]))
    ensures AllScannable(datas[..i + 1]) <==> AllScannable(datas[..i]) && Scannable(datas[i])
  {
    assert datas[..i + 1] == datas[..i] + [datas[i]];
    CombinedAppend(datas[..i], datas[i]);
  }

  class Uploader {
    const host: Host
    var disk: Disk
    var blobs: Blobs

    constructor (host: Host, disk: Disk, blobs: Blobs)
      ensures this.host == host && this.disk == disk && this.blobs == blobs
    {
      this.host, this.disk, this.blobs := host, disk, blobs;
    }

    /** Copies every file of the group into one writer. */
    method WriteGroup(writer: Writer, dir: string, files: seq<string>) returns (ok: bool, ghost calls: seq<Call>)
      requires AllRegular(disk, dir, files)
      requires writer.written == "" && writer.host.Valid()
      modifies writer, writer.host
      ensures writer.host.Valid() && writer.host.log == old(writer.host.log) + calls && ClosesNoBlob(calls)
      ensures ok <==> AllOk(calls) && AllScannable(Datas(disk, dir, files))
      ensures ok ==> writer.written == Combined(Datas(disk, dir, files))
    {
      var i := 0;
      calls := [];
      ghost var datas := Datas(disk, dir, files);
      while i < |files|
        invariant 0 <= i <= |files|
        invariant writer.host.Valid() && writer.host.log == old(writer.host.log) + calls
        invariant ClosesNoBlob(calls) && AllOk(calls) && AllScannable(datas[..i])
        invariant writer.written == Combined(datas[..i])
      {
        var path := FilePath(dir, files[i]);
        ghost var copied;
        ok, copied := BufferWriteToBucket(writer, path, disk[path].data);
        assert datas[i] == disk[path].data;
        AllOkAppend(calls, copied);
        LogGrows(old(writer.host.log), calls, copied);
        calls := calls + copied;
        if !ok {
          return false, calls;
        }
        OneMoreData(datas, i);
        i := i + 1;
      }
      assert datas[..i] == datas;
      return true, calls;
    }

    /** Deletes the files of an uploaded group; it goes on after a deletion that fails. */
    method DeleteGroup(dir: string, files: seq<string>)
      returns (processed: nat, failed: bool, ghost calls: seq<Call>)
      requires Distinct(files) && forall i :: 0 <= i < |files| ==> FilePath(dir, files[i]) in disk
      requires host.Valid()
      modifies this`disk, host
      ensures host.Valid() && host.log == old(host.log) + calls && ClosesNoBlob(calls)
      ensures failed <==> !AllOk(calls)
      ensures disk.Keys <= old(disk).Keys && forall p :: p in disk ==> disk[p] == old(disk)[p]
      ensures forall p :: p in old(disk) && p !in disk ==>
                exists j :: 0 <= j < |files| && p == FilePath(dir, files[j])
      ensures |calls| == |files|
      ensures forall j :: 0 <= j < |files| ==>
                && calls[j].op == Remove(FilePath(dir, files[j]))
                && (calls[j].ok <==> FilePath(dir, files[j]) !in disk)
      ensures !failed ==> |disk| + |files| == |old(disk)| && processed == |files|
    {
      processed, failed := 0, false;
      calls := [];
      var i := 0;
      while i < |files|
        invariant 0 <= i <= |files| && |calls| == i
        invariant host.Valid() && host.log == old(host.log) + calls && ClosesNoBlob(calls)
        invariant failed <==> !AllOk(calls)
        invariant disk.Keys <= old(disk).Keys && forall p :: p in disk ==> disk[p] == old(disk)[p]
        invariant forall p :: p in old(disk) && p !in disk ==>
                    exists j :: 0 <= j < |files| && p == FilePath(dir, files[j])
        invariant forall j :: i <= j < |files| ==> FilePath(dir, files[j]) in disk
        invariant forall j :: 0 <= j < i ==>
                    && calls[j].op == Remove(FilePath(dir, files[j]))
                    && (calls[j].ok <==> FilePath(dir, files[j]) !in disk)
        invariant !failed ==> processed == i && |disk| + i == |old(disk)|
      {
        var path := FilePath(dir, files[i]);
        assert path in disk;
        assert forall j :: 0 <= j < |files| && j != i ==> FilePath(dir, files[j]) != path by {
          forall j | 0 <= j < |files| && j != i
            ensures FilePath(dir, files[j]) != path
          {
            if i < j { DistinctAt(files, i, j); } else { DistinctAt(files, j, i); }
          }
        }
        var removed := host.Ask(Remove(path));
        OneMoreCall(calls, Call(Remove(path), removed));
        LogGrows(old(host.log), calls, [Call(Remove(path), removed)]);
        calls := calls + [Call(Remove(path), removed)];
        i := i + 1;
        if !removed {
          failed := true;
          continue;
        }
        assert (disk - {path}).Keys == disk.Keys - {path};
        assert |disk.Keys - {path}| == |disk.Keys| - 1;
        disk := disk - {path};
        processed := processed + 1;
      }
    }

    /** One attempt at a directory: open a writer, copy every file, close.  A failed close, and the close on
        the error path, may commit what was written. */
    method TryUpload(dir: string, files: seq<string>, blob: FilePath)
      returns (wrote: bool, closed: bool, ghost calls: seq<Call>)
      requires AllRegular(disk, dir, files) && host.Valid()
      modifies this`blobs, host
      ensures host.Valid() && host.log == old(host.log) + calls
      ensures blobs.Keys <= old(blobs).Keys + {blob}
      ensures forall k :: k in old(blobs) && k != blob ==> k in blobs && blobs[k] == old(blobs)[k]
      ensures wrote <==> OnlyClosesFail(calls) && AllScannable(Datas(disk, dir, files))
      ensures closed ==> wrote && blob in blobs && blobs[blob] == Combined(Datas(disk, dir, files))
      ensures ClosesOnly(calls, blob, Closes(calls, blob)) && (wrote ==> Closes(calls, blob) == [closed])
    {
      wrote, closed := false, false;
      var isOpen := host.Ask(NewWriter(blob));
      OneCall(Call(NewWriter(blob), isOpen));
      calls := [Call(NewWriter(blob), isOpen)];
      if !isOpen {
        NoCloses(calls, blob);
        return;
      }
      var writer := new Writer(host, blob);
      ghost var written;
      wrote, written := WriteGroup(writer, dir, files);
      closed := host.Ask(CloseBlob(blob));
      AttemptCalls(blob, calls, written, closed);
      calls := calls + written + [Call(CloseBlob(blob), closed)];
      var commits: bool := *;
      closed := wrote && closed;
      if closed || commits {
        blobs := blobs[blob := writer.written];
      }
    }

    /** The retry loop for one directory: at most three attempts, and another one only after a failed close. */
    method UploadGroup(dir: string, files: seq<string>, blob: FilePath)
      returns (uploaded: bool, ghost calls: seq<Call>, ghost closes: seq<bool>)
      requires AllRegular(disk, dir, files) && host.Valid()
      modifies this`blobs, host
      ensures host.Valid() && host.log == old(host.log) + calls
      ensures blobs.Keys <= old(blobs).Keys + {blob}
      ensures forall k :: k in old(blobs) && k != blob ==> k in blobs && blobs[k] == old(blobs)[k]
      ensures uploaded <==> AllScannable(Datas(disk, dir, files)) && OnlyClosesFail(calls) && !GaveUp(closes)
      ensures ClosesOnly(calls, blob, closes) && (uploaded ==> Closed(closes))
      ensures uploaded ==> blob in blobs && blobs[blob] == Combined(Datas(disk, dir, files))
    {
      calls, closes := [], [];
      NoCloses(calls, blob);
      var i := 0;
      while i < MAX_UPLOAD_ATTEMPT
        invariant 0 <= i < MAX_UPLOAD_ATTEMPT
        invariant host.Valid() && host.log == old(host.log) + calls
        invariant blobs.Keys <= old(blobs).Keys + {blob}
        invariant forall k :: k in old(blobs) && k != blob ==> k in blobs && blobs[k] == old(blobs)[k]
        invariant OnlyClosesFail(calls) && (i > 0 ==> AllScannable(Datas(disk, dir, files)))
        invariant ClosesOnly(calls, blob, closes) && closes == seq(i, _ => false)
        decreases MAX_UPLOAD_ATTEMPT - i
      {
        ghost var sofar, tried := calls, [];
        var wrote, closed;
        wrote, closed, tried := TryUpload(dir, files, blob);
        AllOkAppend(sofar, tried);
        LogGrows(old(host.log), sofar, tried);
        AttemptOutcome(i, closed);
        MoreCloses(sofar, tried, blob, closes, Closes(tried, blob));
        calls, closes := sofar + tried, closes + Closes(tried, blob);
        if !wrote || closed || i == MAX_UPLOAD_ATTEMPT - 1 {
          return wrote && closed, calls, closes;
        }
        i := i + 1;
      }
      assert false;
    }

    /** Uploads one directory, and deletes its files only after that has succeeded. */
    method UploadDir(dir: string, files: seq<string>, stamp: string)
      returns (processed: nat, failed: bool, ghost calls: seq<Call>, ghost closes: seq<bool>)
      requires Distinct(files) && AllRegular(disk, dir, files) && host.Valid()
      modifies this, host
      ensures host.Valid() && host.log == old(host.log) + calls
      ensures DirUploaded(dir, files, stamp, old(disk), disk, old(blobs), blobs, processed, failed)
      ensures ClosesOnly(calls, FilePath(dir, stamp), closes) && (!failed ==> Closed(closes))
      ensures failed <==> !AllScannable(Datas(old(disk), dir, files)) || !OnlyClosesFail(calls) || GaveUp(closes)
    {
      var blob := FilePath(dir, stamp);
      var uploaded;
      uploaded, calls, closes := UploadGroup(dir, files, blob);
      if !uploaded {
        return 0, true, calls, closes;
      }
      ghost var datas := Datas(disk, dir, files);
      assert forall j :: 0 <= j < |files| ==> Scannable(datas[j]) && datas[j] == disk[FilePath(dir, files[j])].data;
      ghost var removed;
      processed, failed, removed := DeleteGroup(dir, files);
      DeletionCalls(calls, removed, blob, closes);
      LogGrows(old(host.log), calls, removed);
      calls := calls + removed;
      if failed {
        processed := 0;
      } else {
        assert forall j :: 0 <= j < |files| ==> removed[j].ok;
      }
    }

    /** WalkDir over the source: the walked regular files, grouped by directory. */
    method WalkSource() returns (groups: Groups, failed: bool, ghost calls: seq<Call>)
      requires host.Valid()
      modifies host
      ensures host.Valid() && host.log == old(host.log) + calls && ClosesNoBlob(calls)
      ensures failed <==> !AllOk(calls)
      ensures !failed ==> Partition(groups, RegularPaths(disk))
    {
      groups, failed := map[], false;
      calls := [];
      var todo := disk.Keys;
      ghost var walked: set<FilePath> := {};
      while todo != {}
        invariant host.Valid() && host.log == old(host.log) + calls && ClosesNoBlob(calls) && AllOk(calls)
        invariant todo <= disk.Keys
        invariant walked == RegularPaths(disk) - todo
        invariant Partition(groups, walked)
      {
        var path :| path in todo;
        var ok := host.Ask(WalkEntry(path));
        OneMoreCall(calls, Call(WalkEntry(path), ok));
        LogGrows(old(host.log), calls, [Call(WalkEntry(path), ok)]);
        calls := calls + [Call(WalkEntry(path), ok)];
        if !ok {
          return map[], true, calls;
        }
        todo := todo - {path};
        if disk[path].Regular? {
          AddKeepsPartition(groups, walked, path);
          groups := AddToGroup(groups, path);
          walked := walked + {path};
        }
        assert walked == RegularPaths(disk) - todo;
      }
      assert RegularPaths(disk) - todo == RegularPaths(disk);
    }

    /** Uploads the groups one after the other, and stops at the first failure. */
    method UploadAll(groups: Groups, stamp: string, ghost earlier: seq<Call>)
      returns (processed: nat, failed: bool, ghost calls: seq<Call>)
      requires Partition(groups, RegularPaths(disk)) && Unused(blobs, stamp) && host.Valid()
      requires AllOk(earlier) && ClosesNoBlob(earlier)
      modifies this, host
      ensures host.Valid() && host.log == old(host.log) + calls
      ensures disk.Keys <= old(disk).Keys && forall p :: p in disk ==> disk[p] == old(disk)[p]
      ensures NothingLost(old(disk), disk, blobs) && OnlyAdds(old(blobs), blobs, stamp)
      ensures failed ==> processed == 0
      ensures !failed ==> processed == |RegularPaths(old(disk))| && RegularPaths(disk) == {}
      ensures !failed ==> FlushedInto(old(disk), blobs, stamp)
      ensures failed <==> FlushFails(old(disk), earlier + calls)
      ensures !failed ==> AllClosedInTime(old(disk), earlier + calls, stamp)
    {
      ghost var before := disk;
      processed, failed := 0, false;
      calls := [];
      assert earlier + [] == earlier;
      NoneClosed(groups, earlier, stamp);
      var todo := groups.Keys;
      while todo != {}
        invariant host.Valid() && host.log == old(host.log) + calls && !failed
        invariant FlushInv(groups, before, disk, old(blobs), blobs, stamp, todo)
        invariant processed + |disk| == |before|
        invariant OnlyClosesFail(earlier + calls) && ClosedSoFar(groups, earlier + calls, stamp, todo)
      {
        var dir :| dir in todo;
        ghost var mid, midBlobs, sofar, more, closes := disk, blobs, earlier + calls, [], [];
        GroupStillOnDisk(groups, before, disk, old(blobs), blobs, stamp, todo, dir);
        var count;
        count, failed, more, closes := UploadDir(dir, groups[dir], stamp);
        AllOkAppend(sofar, more);
        LogGrows(earlier, calls, more);
        LogGrows(old(host.log), calls, more);
        calls := calls + more;
        if failed {
          UploadFailureLosesNothing(
            groups, before, mid, disk, old(blobs), midBlobs, blobs, stamp, todo, dir, count);
          UploadFailureFailsFlush(groups, before, dir, stamp, todo, sofar, more, closes);
          return 0, true, calls;
        }
        UploadKeepsFlushInv(groups, before, mid, disk, old(blobs), midBlobs, blobs, stamp, todo, dir, count);
        OneMoreClosed(groups, sofar, more, stamp, todo, dir, closes);
        processed := processed + count;
        todo := todo - {dir};
      }
      AllGroupsDone(groups, before, disk, blobs, stamp);
      GroupsGiveDirBlobs(groups, before, disk, blobs, stamp);
      AllRegularGone(before, disk);
      AllClosed(groups, before, earlier + calls, stamp);
    }

    /** One upload cycle.  Whatever fails, and wherever, no walked file is lost; and the cycle fails exactly if a file
        has a line that is too long, some call other than a close of a blob fails, or closing the blob of some
        directory fails three times. */
    method Flush(stamp: string) returns (processed: nat, failed: bool, ghost calls: seq<Call>)
      requires Unused(blobs, stamp) && host.Valid()
      modifies this, host
      ensures host.Valid() && host.log == old(host.log) + calls && calls != [] && calls[0].op == OpenBucket
      ensures disk.Keys <= old(disk).Keys && forall p :: p in disk ==> disk[p] == old(disk)[p]
      ensures NothingLost(old(disk), disk, blobs) && OnlyAdds(old(blobs), blobs, stamp)
      ensures failed ==> processed == 0
      ensures !failed ==> processed == |RegularPaths(old(disk))| && RegularPaths(disk) == {}
      ensures !failed ==> FlushedInto(old(disk), blobs, stamp)
      ensures failed <==> FlushFails(old(disk), calls)
      ensures !failed ==> AllClosedInTime(old(disk), calls, stamp)
    {
      var isOpen := host.Ask(OpenBucket);
      calls := [Call(OpenBucket, isOpen)];
      OneCall(Call(OpenBucket, isOpen));
      if !isOpen {
        return 0, true, calls;
      }
      ghost var start, more := calls, [];
      var groups;
      groups, failed, more := WalkSource();
      AllOkAppend(start, more);
      LogGrows(old(host.log), start, more);
      calls := start + more;
      if failed {
        assert OnlyClosesFail(more) <==> AllOk(more);
        return 0, true, calls;
      }
      processed, failed, more := UploadAll(groups, stamp, calls);
      LogGrows(old(host.log), calls, more);
      calls := calls + more;
    }

    /** One round of the loop, seen from all the completed flushes so far. */
    method FlushAfter(stamp: string, ghost earlier: seq<Round>)
      returns (failed: bool, ghost round: Round)
      requires Unused(blobs, stamp) && AllDone(earlier, blobs) && host.Valid()
      modifies this, host
      ensures host.Valid() && host.log == old(host.log) + round.calls
      ensures OnlyAdds(old(blobs), blobs, stamp)
      ensures round.found == old(disk) && round.left == disk && round.stamp == stamp
      ensures !failed ==> AllDone(earlier + [round], blobs)
      ensures failed ==> AllDone(earlier, blobs) && RoundFailed(round, blobs)
    {
      var processed;
      ghost var calls;
      processed, failed, calls := Flush(stamp);
      round := Round(old(disk), disk, stamp, calls);
      RoundsSurvive(earlier, old(blobs), blobs, stamp);
      if !failed {
        assert RoundDone(round, blobs);
      }
    }

    /** The flush loop, against a script of what each select observed.  `rounds` collects the completed
        flushes; `last` is the flush that failed, if one did; `stamps` are the timestamps of the flushes. */
    method Run(script: seq<Wake>, stamps: seq<string>)
      returns (result: RunResult, ghost rounds: seq<Round>, ghost last: Round)
      requires |stamps| == |script| + 1 && StampsLeft(blobs, stamps, 0) && host.Valid()
      modifies this, host
      // Each flush starts from the disk the select left behind, and has a stamp of its own.
      ensures Follow(rounds, old(disk), script, stamps)
      // Nothing is called but by the flushes.
      ensures host.log == old(host.log) + AllCalls(rounds) + if result.FlushFailed? then last.calls else []
      // Earlier blobs are never touched; every completed flush emptied its disk into its blobs, for good.
      ensures Extends(old(blobs), blobs) && AllDone(rounds, blobs)
      // Only a cancellation ends the loop, and exactly one flush follows it.
      ensures result.Stopped? ==>
                && |rounds| >= 2 && script[|rounds| - 2].Cancelled? && rounds[|rounds| - 1].left == disk
                && Ticking(script, |rounds| - 2)
      // Otherwise a flush failed, for a reason of its own and without losing anything.
      ensures result.FlushFailed? ==>
                && |rounds| <= |script| && last.found == FoundBy(old(disk), script, |rounds|) && last.left == disk
                && RoundFailed(last, blobs) && Ticking(script, |rounds| - 1)
      ensures result.StillRunning? ==>
                |rounds| == |script| + 1 && Ticking(script, |script|)
    {
      var done := false;
      var n := 0;
      rounds, last := [], Round(disk, disk, "", []);
      while true
        invariant 0 <= n <= |script| && |rounds| == n
        invariant host.Valid() && host.log == old(host.log) + AllCalls(rounds)
        invariant disk == FoundBy(old(disk), script, n)
        invariant done <==> n > 0 && script[n - 1].Cancelled?
        invariant Ticking(script, n - 1) && RunInv(rounds, old(disk), script, stamps, old(blobs), blobs)
        decreases |script| - n
      {
        ghost var before := blobs;
        var failed;
        failed, last := FlushAfter(stamps[n], rounds);
        if failed {
          return FlushFailed, rounds, last;
        }
        RunGrows(rounds, last, old(disk), script, stamps, old(blobs), before, blobs);
        AllCallsAppend(rounds, last);
        LogGrows(old(host.log), AllCalls(rounds), last.calls);
        rounds := rounds + [last];
        if done {
          return Stopped, rounds, last;
        }
        if n == |script| {
          return StillRunning, rounds, last;
        }
        done := script[n].Cancelled?;
        disk := script[n].disk;
        n := n + 1;
      }
    }
  }

  /** A line of the scanner's buffer size, five megabytes, is too long, and one a byte shorter is not. */
  lemma LongLineIsNotScannable()
    ensures !Scannable(seq(5_242_880, _ => 'x')) && Scannable(seq(5_242_879, _ => 'x'))
  {
    var long, short := seq(MAX_LINE, _ => 'x'), seq(MAX_LINE - 1, _ => 'x');
    SplitWhole(long, '\n');
    SplitWhole(short, '\n');
    assert Split(long, '\n')[0] == long;
  }
}
