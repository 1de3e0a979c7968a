/**
  The relocation loop of `convert_files`: every planned photo is handed to
  `move_photo` in list order, one progress tick each, whatever the earlier
  photos' outcomes were.
 */
module Driver {
  import opened Wrappers
  import opened RustPath
  import opened Media
  import opened FileSystem
  import opened Relocator
  import opened Planner

  /** The loop unwraps both paths of every photo (for `move_photo` and for its log line). */
  predicate AllRelocatable(photos: seq<Photo>) {
    forall i :: 0 <= i < |photos| ==> photos[i].path.Some? && photos[i].newPath.Some?
  }

  /** The state of a run: the filesystem so far and the result of each `move_photo` call made. */
  datatype Run = Run(fs: Fs, outcomes: seq<Result<(), PsError>>)

  /**
    Reference definition of the loop: the run after the photos of the list,
    taken in order; `oracles[i]` decides the filesystem calls for photo `i`.
   */
  function RelocateAll(fs: Fs, photos: seq<Photo>, copy: bool, dryRun: bool, oracles: seq<Oracle>): (r: Run)
    requires |oracles| == |photos|
    requires AllRelocatable(photos)
    ensures |r.outcomes| == |photos|
    decreases |photos|
  {
    if photos == [] then Run(fs, [])
    else
      var n := |photos| - 1;
      var before := RelocateAll(fs, photos[..n], copy, dryRun, oracles[..n]);
      var step := MovePhoto(before.fs, photos[n], !copy, dryRun, oracles[n]);
      Run(step.fs, before.outcomes + [step.result])
  }

  /** The loop of src/main.rs:75-89, with the progress bar reduced to a tick count. */
  method ConvertFiles(fs: Fs, photos: seq<Photo>, copy: bool, dryRun: bool, oracles: seq<Oracle>)
    returns (final: Fs, ticks: nat, outcomes: seq<Result<(), PsError>>)
    requires |oracles| == |photos|
    requires AllRelocatable(photos)
    ensures ticks == |photos| && |outcomes| == |photos|
    ensures Run(final, outcomes) == RelocateAll(fs, photos, copy, dryRun, oracles)
  {
    final, ticks, outcomes := fs, 0, [];
    var i := 0;
    while i < |photos|
      invariant 0 <= i <= |photos|
      invariant ticks == i
      invariant Run(final, outcomes) == RelocateAll(fs, photos[..i], copy, dryRun, oracles[..i])
    {
      ticks := ticks + 1;
      var step := MovePhoto(final, photos[i], !copy, dryRun, oracles[i]);
      RunExtends(fs, photos, copy, dryRun, oracles, i);
      final := step.fs;
      outcomes := outcomes + [step.result];
      i := i + 1;
    }
    assert photos[..i] == photos && oracles[..i] == oracles;
  }

  /** The run over the first `i + 1` photos is the run over the first `i`, then photo `i`. */
  lemma RunExtends(fs: Fs, photos: seq<Photo>, copy: bool, dryRun: bool, oracles: seq<Oracle>, i: nat)
    requires |oracles| == |photos| && i < |photos|
    requires AllRelocatable(photos)
    ensures var before := RelocateAll(fs, photos[..i], copy, dryRun, oracles[..i]);
      var step := MovePhoto(before.fs, photos[i], !copy, dryRun, oracles[i]);
      RelocateAll(fs, photos[..i + 1], copy, dryRun, oracles[..i + 1]) == Run(step.fs, before.outcomes + [step.result])
  {
    assert photos[..i + 1][..i] == photos[..i] && oracles[..i + 1][..i] == oracles[..i];
    assert photos[..i + 1][i] == photos[i] && oracles[..i + 1][i] == oracles[i];
  }

  /** The run after `k` photos: the filesystem photo `k` sees. */
  function StateBefore(fs: Fs, photos: seq<Photo>, copy: bool, dryRun: bool, oracles: seq<Oracle>, k: nat): Fs
    requires |oracles| == |photos| && k <= |photos|
    requires AllRelocatable(photos)
  {
    RelocateAll(fs, photos[..k], copy, dryRun, oracles[..k]).fs
  }

  /** Dropping the last photo of a run drops its last result and nothing else. */
  lemma OutcomesBeforeLast(fs: Fs, photos: seq<Photo>, copy: bool, dryRun: bool, oracles: seq<Oracle>)
    requires |oracles| == |photos| && photos != []
    requires AllRelocatable(photos)
    ensures RelocateAll(fs, photos, copy, dryRun, oracles).outcomes[..|photos| - 1]
      == RelocateAll(fs, photos[..|photos| - 1], copy, dryRun, oracles[..|photos| - 1]).outcomes
  {
  }

  /** The first `k` results of a run are the results of the run over the first `k` photos. */
  lemma {:induction false} RunPrefix(fs: Fs, photos: seq<Photo>, copy: bool, dryRun: bool, oracles: seq<Oracle>, k: nat)
    requires |oracles| == |photos| && k <= |photos|
    requires AllRelocatable(photos)
    ensures RelocateAll(fs, photos, copy, dryRun, oracles).outcomes[..k]
      == RelocateAll(fs, photos[..k], copy, dryRun, oracles[..k]).outcomes
    decreases |photos|
  {
    if k == |photos| {
      assert photos[..k] == photos && oracles[..k] == oracles;
    } else {
      var n := |photos| - 1;
      OutcomesBeforeLast(fs, photos, copy, dryRun, oracles);
      RunPrefix(fs, photos[..n], copy, dryRun, oracles[..n], k);
      assert photos[..n][..k] == photos[..k] && oracles[..n][..k] == oracles[..k];
    }
  }

  /**
    Per-item isolation: photo `i` is always attempted, and its outcome is the
    one `move_photo` gives on the filesystem the earlier photos left behind,
    whatever those earlier calls returned.
   */
  lemma EveryPhotoIsAttempted(fs: Fs, photos: seq<Photo>, copy: bool, dryRun: bool, oracles: seq<Oracle>, i: nat)
    requires |oracles| == |photos| && i < |photos|
    requires AllRelocatable(photos)
    ensures RelocateAll(fs, photos, copy, dryRun, oracles).outcomes[i]
      == MovePhoto(StateBefore(fs, photos, copy, dryRun, oracles, i), photos[i], !copy, dryRun, oracles[i]).result
  {
    RunPrefix(fs, photos, copy, dryRun, oracles, i + 1);
    RunExtends(fs, photos, copy, dryRun, oracles, i);
    assert RelocateAll(fs, photos, copy, dryRun, oracles).outcomes[i]
      == RelocateAll(fs, photos[..i + 1], copy, dryRun, oracles[..i + 1]).outcomes[i];
  }

  /** A dry run changes no file anywhere (directories may still be created). */
  lemma {:induction false} DryRunChangesNoFile(fs: Fs, photos: seq<Photo>, copy: bool, oracles: seq<Oracle>)
    requires |oracles| == |photos|
    requires AllRelocatable(photos)
    ensures RelocateAll(fs, photos, copy, true, oracles).fs.files == fs.files
    ensures fs.dirs <= RelocateAll(fs, photos, copy, true, oracles).fs.dirs
    decreases |photos|
  {
    if photos != [] {
      var n := |photos| - 1;
      DryRunChangesNoFile(fs, photos[..n], copy, oracles[..n]);
      var before := RelocateAll(fs, photos[..n], copy, true, oracles[..n]);
    }
  }

  /** In copy mode no file ever disappears: every path that held a file still does. */
  lemma {:induction false} CopyKeepsEveryFile(fs: Fs, photos: seq<Photo>, dryRun: bool, oracles: seq<Oracle>)
    requires |oracles| == |photos|
    requires AllRelocatable(photos)
    ensures fs.files.Keys <= RelocateAll(fs, photos, true, dryRun, oracles).fs.files.Keys
    decreases |photos|
  {
    if photos != [] {
      var n := |photos| - 1;
      CopyKeepsEveryFile(fs, photos[..n], dryRun, oracles[..n]);
      var before := RelocateAll(fs, photos[..n], true, dryRun, oracles[..n]);
    }
  }

  /** No outcome is the missing-parent error. */
  predicate NoMissingParent(outcomes: seq<Result<(), PsError>>) {
    forall i :: 0 <= i < |outcomes| ==> !(outcomes[i].Err? && outcomes[i].error.NoParentDirectory?)
  }

  /** A run in which every destination has a parent directory never reports a missing parent. */
  lemma {:induction false} NoMissingParentError(fs: Fs, photos: seq<Photo>, copy: bool, dryRun: bool, oracles: seq<Oracle>)
    requires |oracles| == |photos|
    requires AllRelocatable(photos)
    requires forall i :: 0 <= i < |photos| ==> Parent(photos[i].newPath.value).Some?
    ensures NoMissingParent(RelocateAll(fs, photos, copy, dryRun, oracles).outcomes)
    decreases |photos|
  {
    if photos != [] {
      var n := |photos| - 1;
      NoMissingParentError(fs, photos[..n], copy, dryRun, oracles[..n]);
      var before := RelocateAll(fs, photos[..n], copy, dryRun, oracles[..n]);
      var step := MovePhoto(before.fs, photos[n], !copy, dryRun, oracles[n]);
      assert Parent(photos[n].newPath.value).Some?;
      assert !(step.result.Err? && step.result.error.NoParentDirectory?);
      var outcomes := RelocateAll(fs, photos, copy, dryRun, oracles).outcomes;
      assert outcomes == before.outcomes + [step.result];
      forall i | 0 <= i < |outcomes|
        ensures !(outcomes[i].Err? && outcomes[i].error.NoParentDirectory?)
      {
        if i < n {
          assert outcomes[i] == before.outcomes[i];
        }
      }
    }
  }

  /**
    Photos planned by `update_new_path` (each with a file name and a capture
    date) can all be relocated, and none of them fails for want of a parent
    directory: that error of `move_photo` is unreachable after planning.
   */
  lemma PlannedPhotosHaveParents(fs: Fs, dest: string, photos: seq<Photo>, copy: bool, dryRun: bool, oracles: seq<Oracle>)
    requires |oracles| == |photos|
    requires forall i :: 0 <= i < |photos| ==>
      photos[i].path.Some? && FileName(photos[i].path.value).Some? && photos[i].date.Some?
    ensures var planned := UpdateNewPath(dest, photos);
      && AllRelocatable(planned)
      && NoMissingParent(RelocateAll(fs, planned, copy, dryRun, oracles).outcomes)
  {
    PlannedDestinations(dest, photos);
    NoMissingParentError(fs, UpdateNewPath(dest, photos), copy, dryRun, oracles);
  }

  /** `update_new_path` gives every photo with a file name and a date a destination that has a parent. */
  lemma PlannedDestinations(dest: string, photos: seq<Photo>)
    requires forall i :: 0 <= i < |photos| ==>
      photos[i].path.Some? && FileName(photos[i].path.value).Some? && photos[i].date.Some?
    ensures var planned := UpdateNewPath(dest, photos);
      && AllRelocatable(planned)
      && forall i :: 0 <= i < |planned| ==> Parent(planned[i].newPath.value).Some?
  {
  }
}
