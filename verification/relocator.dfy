/**
  Relocation of one photo (`move_photo`): find the destination's parent
  directory, create what is missing of it, stop there on a dry run, and
  otherwise rename or copy the file, ignoring a failure of that last call.
 */
module Relocator {
  import opened Wrappers
  import opened RustPath
  import opened Media
  import opened FileSystem

  /** The errors `move_photo` returns. */
  datatype PsError =
    /** `PsErrorKind::IoError`: the destination path has no parent directory. */
    | NoParentDirectory(path: string)
    /** The error of `create_dir_all` on the parent directory, passed on. */
    | CreateDirFailed(dir: string)

  /** Whether each filesystem call of one `move_photo` fails (see `CreateDirAll` for `mkdirFailAt`). */
  datatype Oracle = Oracle(mkdirFailAt: Option<nat>, renameFails: bool, copyFault: CopyFault)

  /** The filesystem after one relocation, and what `move_photo` returned. */
  datatype Relocation = Relocation(fs: Fs, result: Result<(), PsError>)

  /**
    What `move_photo` needs of its caller: a destination (it is unwrapped), and
    a current path unless this is a dry run (that one is unwrapped only after
    the dry-run return).
   */
  predicate Movable(photo: Photo, dryRun: bool) {
    photo.newPath.Some? && (!dryRun ==> photo.path.Some?)
  }

  /** Creation of the parent directory fails exactly when it is missing, something must be made, and the oracle says so. */
  predicate CreationFails(fs: Fs, dir: string, oracle: Oracle) {
    !Exists(fs, dir) && oracle.mkdirFailAt.Some? && MissingChain(fs.dirs, dir) != []
  }

  /** The call that moves or copies the file, as chosen by `move_file`, fails. */
  predicate TransferFails(fs: Fs, src: string, moveFile: bool, oracle: Oracle) {
    (if moveFile then oracle.renameFails else !oracle.copyFault.NoFault?) || src !in fs.files
  }

  /** `move_photo`: the filesystem afterwards and the result returned. */
  function MovePhoto(fs: Fs, photo: Photo, moveFile: bool, dryRun: bool, oracle: Oracle): (r: Relocation)
    requires Movable(photo, dryRun)
    // The only errors are a missing parent and a failed directory creation, in that order.
    ensures Parent(photo.newPath.value).None? ==>
      r == Relocation(fs, Err(NoParentDirectory(photo.newPath.value)))
    ensures r.result.Err? <==>
      Parent(photo.newPath.value).None? || CreationFails(fs, Parent(photo.newPath.value).value, oracle)
    // Only missing ancestors of the parent directory are created, and on
    // success every one of them is; nothing is created when something, even a
    // file, is already at the parent's path; after a failed creation no file
    // has changed and the parent is still missing.
    ensures Parent(photo.newPath.value).Some? ==>
      var dir := Parent(photo.newPath.value).value;
      && fs.dirs <= r.fs.dirs
      && (forall x :: x in r.fs.dirs && x !in fs.dirs ==> x in MissingChain(fs.dirs, dir))
      && (r.result.Err? ==> r.result == Err(CreateDirFailed(dir)) && r.fs.files == fs.files && dir !in r.fs.dirs)
      && (r.result.Ok? ==> dir == "" || dir in r.fs.dirs || dir in fs.files)
      && (r.result.Ok? && !Exists(fs, dir) ==> forall x :: x in MissingChain(fs.dirs, dir) ==> x in r.fs.dirs)
      && (Exists(fs, dir) ==> r.fs.dirs == fs.dirs)
    // A dry run changes no file.
    ensures dryRun ==> r.fs.files == fs.files
    // A rename that goes through moves the contents; a copy duplicates them.
    ensures r.result.Ok? && !dryRun && moveFile && !TransferFails(fs, photo.path.value, true, oracle) ==>
      var src, dst := photo.path.value, photo.newPath.value;
      && dst in r.fs.files && r.fs.files[dst] == fs.files[src]
      && (src != dst ==> src !in r.fs.files)
    ensures r.result.Ok? && !dryRun && !moveFile && !TransferFails(fs, photo.path.value, false, oracle) ==>
      var src, dst := photo.path.value, photo.newPath.value;
      && src in r.fs.files && r.fs.files[src] == fs.files[src]
      && dst in r.fs.files && r.fs.files[dst] == fs.files[src]
    // A rename or copy that fails still gives `Ok`. A failed rename, or a copy
    // that fails before opening the destination, changes no file; a copy that
    // fails while writing leaves the destination holding a prefix of the source.
    ensures (&& Parent(photo.newPath.value).Some?
             && !CreationFails(fs, Parent(photo.newPath.value).value, oracle)
             && !dryRun
             && TransferFails(fs, photo.path.value, moveFile, oracle)) ==>
      var src, dst := photo.path.value, photo.newPath.value;
      && r.result.Ok?
      && (moveFile || oracle.copyFault.BeforeWrite? || src !in fs.files ==> r.fs.files == fs.files)
      && (!moveFile && oracle.copyFault.AfterWriting? && src in fs.files ==>
            dst in r.fs.files && r.fs.files[dst] <= fs.files[src])
    // No file other than the source and the destination is touched.
    ensures dryRun || !moveFile ==> SameFilesExcept(fs.files, r.fs.files, {photo.newPath.value})
    ensures !dryRun && moveFile ==>
      SameFilesExcept(fs.files, r.fs.files, {photo.path.value, photo.newPath.value})
  {
    var dst := photo.newPath.value;
    match Parent(dst)
    case None => Relocation(fs, Err(NoParentDirectory(dst)))
    case Some(dir) =>
      var (fs1, created) := if Exists(fs, dir) then (fs, true) else CreateDirAll(fs, dir, oracle.mkdirFailAt);
      if !created then Relocation(fs1, Err(CreateDirFailed(dir)))
      else if dryRun then Relocation(fs1, Ok(()))
      else if moveFile then Relocation(Rename(fs1, photo.path.value, dst, oracle.renameFails), Ok(()))
      else Relocation(Copy(fs1, photo.path.value, dst, oracle.copyFault), Ok(()))
  }
}
