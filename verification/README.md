# photosort core, modelled in Dafny

photosort sorts photos and videos into a dated tree. The model covers the
photo-handling logic of `src/main.rs`:

- **Destination planning** (`update_photo_new_path`, `update_new_path`): a photo
  taken on Y-M-D goes to `dest/Y/MM/DD/name`. The year is printed with `{}` and
  month and day with `{:02}`. The name is the archive's original name when one
  is given, and otherwise the file-name component of the photo's current path.
  A path with no file name leaves the photo unplanned.
- **Relocation** (`move_photo`): take the destination's parent directory, or
  fail with an `IoError`. Create the missing directories, and pass on any
  failure. Stop on a dry run. Otherwise rename or copy the file, ignoring a
  failure of that call.
- **The driver loop** of `convert_files`: every photo is handed to
  `move_photo` in order, with one progress tick each, whatever the earlier
  calls returned.

Modules, one per concern:

| file | module | what it holds |
|---|---|---|
| `wrappers.dfy` | `Wrappers` | `Option` and `Result` |
| `decimal.dfy` | `Decimal` | `{}` and `{:02}` rendering of integers, and the parsers that invert them |
| `rust_path.dfy` | `RustPath` | a lexical model of Rust's Unix `Path::file_name` and `Path::parent` |
| `media.dfy` | `Media` | the `Photo` record and its capture `Date` |
| `planner.dfy` | `Planner` | `update_photo_new_path`, `update_new_path`, and the read-back of a planned path |
| `filesystem.dfy` | `FileSystem` | an abstract filesystem and the `create_dir_all`, `rename` and `copy` calls |
| `relocator.dfy` | `Relocator` | `move_photo` |
| `driver.dfy` | `Driver` | the loop of `convert_files` and run-level properties |

The filesystem is a record: a set of directory paths and a map from file
paths to byte contents. Each call into it takes an oracle argument that says
whether the call fails:

- `mkdirFailAt = Some(k)`: `create_dir_all` fails after making the outermost
  `k` of the missing directories, and never the target itself.
- `renameFails`: the rename fails and changes nothing (rename(2) is atomic).
- `copyFault`: the copy fails either before the destination is opened, which
  changes nothing, or after writing some bytes. The second case leaves the
  destination created or truncated, and holding that prefix of the source.

A rename or copy also fails when its source file is missing. `Path::exists`
is true for a directory or a file.

`Path::file_name` and `Path::parent` are modelled as Rust's `Components`
iterator computes them on Unix. One step of `next_back` reads the text after
the last `/`. Empty and `.` components are skipped. A leading `/` is the root
and a leading `./` the current directory. `parent` then trims trailing empty
and `.` components. So the facts below are proved about Rust's own rules
rather than assumed:

- the file name is a single component;
- a planned path always has a parent.

photosort is described as counting each photo as succeeded, skipped or
failed, and its dry run as touching nothing. The code behaves differently in
the points below, and the model follows the code:

- A failed rename or copy is not a `Failed` outcome: `move_photo` logs it and
  returns `Ok` (src/main.rs:165-180).
- A dry run does create the missing destination directories, because creation
  comes before the dry-run check (src/main.rs:148-160). Only the files are
  left alone.
- A photo without a capture date is not skipped by the planner: the date is
  unwrapped (src/main.rs:119). The model therefore requires a date whenever the
  path has a file name.
- The code keeps no succeeded/skipped/failed counts. The model keeps the
  per-photo results of `move_photo` and a tick count instead.

## Model

| member | source | states |
|---|---|---|
| Decimal.NatToString | src/main.rs:120-127 | A number is printed with decimal digits only and no leading zero; it has exactly one digit exactly when it is below 10 |
| Decimal.NatRoundTrip | src/main.rs:120-127 | Reading a printed number back gives the number: the rendering loses nothing |
| Decimal.IntToString | src/main.rs:121-123 | The year is printed with digits and a minus sign only, the sign is there exactly when the year is negative, and the magnitude is unpadded: no leading zero unless it is the single digit `0` |
| Decimal.IntRoundTrip | src/main.rs:121-123 | Every year, negative ones included, reads back from its rendering |
| Decimal.Pad2 | src/main.rs:121-125 | `{:02}` gives digits only, exactly two of them below 100, and the plain rendering from 10 on: the width is a minimum, never a truncation |
| Decimal.Pad2RoundTrip | src/main.rs:121-125 | Zero-padding does not change the value of month or day |
| RustPath.FileName | src/main.rs:101-102 | A file name found is one plain component: non-empty, neither `.` nor `..`, and free of `/`, so no directory of the source path can reach the destination name |
| RustPath.Parent | src/main.rs:137-138 | A parent found is a strictly shorter prefix of the path |
| RustPath.NextBackOfJoin | src/main.rs:112-116 | For a plain name `n`, the last component of `a/n` is `n` and what precedes it is `a` (the root if `a` is empty), so the file name of `a/n` is `n` |
| RustPath.NextBackStopsInBody | src/main.rs:137-146 | Whatever follows a plain component, reading the path from the back meets a normal or `..` component before reaching the root |
| RustPath.ParentExistsAfterPlainComponent | src/main.rs:137-146 | A path with a plain component after a separator always has a parent |
| Planner.PlannedPathComponents | src/main.rs:118-129 | `dest/Y/MM/DD/name` always has a parent; for a plain name its file name is `name` and its parent is exactly `dest/Y/MM/DD` |
| Planner.PlannedPathReadBack | src/main.rs:120-127 | For a plain name (one component: no `/`, not `.` or `..`), year, zero-padded month, zero-padded day and name are the last four components of the planned path, and reading them back gives exactly the capture date and the name, whatever the destination root |
| Planner.UpdatePhotoNewPath | src/main.rs:100-132 | Without a file name the photo is unchanged. Otherwise only the new path is set, to exactly `dest/Y/MM/DD/name` with the original name when given and the current file name otherwise: it has a parent, its parent is the dated directory, and its file name is the chosen name when that is plain. Path and date are never changed |
| Planner.PlannedPhotoReadsBack | src/main.rs:100-132 | When the original name, if one is given, is a plain name, the new path a photo is given reads back as its capture date and the name chosen for it. So among such photos, different dates or names never share a destination. An original name with a directory in it (`sub/IMG_001.jpg`) keeps that directory in the path, and is not covered |
| Planner.UpdateNewPath | src/main.rs:94-98 | Every photo of the list is planned, in order, each on its own and always without an original name; the length is unchanged |
| Planner.ArchiveEntryKeepsOriginalName | src/main.rs:113-127 | An archive entry extracted to a temporary file at any path that has a file name, taken on 2021-01-09 and planned under the original name `IMG_001.jpg`, lands at `/out/2021/01/09/IMG_001.jpg` |
| FileSystem.MissingChain | src/main.rs:148-149 | The directories to create are the parent and its successive ancestors up to the first existing one, outermost first: none exists, each is the parent of the next, and above the outermost there is an existing directory, the empty path or nothing |
| FileSystem.CreateDirAll | src/main.rs:148-155 | Directory creation touches no file and adds only directories of the missing chain. It succeeds exactly when nothing needs making or the oracle allows it; on success the whole chain exists, on failure the target directory still does not |
| FileSystem.Rename | src/main.rs:165-171 | A rename that goes through puts the source's contents at the destination and removes the source; one that fails changes nothing; no other file changes |
| FileSystem.Copy | src/main.rs:172-178 | A copy that goes through leaves the source as it was and gives the destination the same contents. One that fails before opening the destination changes nothing. One that fails while writing leaves the destination holding a prefix of the source, of the length written. No path disappears and no other file changes |
| Relocator.MovePhoto | src/main.rs:134-181 | No parent: `NoParentDirectory` and no change. The result is an error exactly when there is no parent or the parent's creation fails. A failed creation touches no file and leaves the parent missing. Only missing ancestors of the parent are created, and on success all of them are. Nothing is created when something, even a regular file, is already at the parent's path. A dry run changes no file. A rename moves the contents and a copy duplicates them. A failed rename or copy still returns `Ok`: a failed rename changes no file, and a copy that fails while writing leaves only a prefix of the source at the destination. Only the source and the destination are touched |
| Driver.RelocateAll | src/main.rs:75-89 | A run gives exactly one `move_photo` result per photo |
| Driver.ConvertFiles | src/main.rs:75-89 | The loop ticks the progress counter once per photo and ends with the filesystem and the per-photo results of the reference run |
| Driver.EveryPhotoIsAttempted | src/main.rs:75-89 | Photo `i` is always attempted, and its result is what `move_photo` gives on the filesystem left by the photos before it, whatever they returned |
| Driver.DryRunChangesNoFile | src/main.rs:148-160 | A dry run over any list changes no file, though it may create directories |
| Driver.CopyKeepsEveryFile | src/main.rs:172-178 | In copy mode no file path ever disappears |
| Driver.NoMissingParentError | src/main.rs:137-146 | When every destination has a parent, no result of the run is the missing-parent error |
| Driver.PlannedPhotosHaveParents | src/main.rs:137-146 | After `update_new_path`, photos that have a file name and a date can all be relocated, and the missing-parent error never occurs for them |

## Left out

- `main`, `get_config` and `print_help` (src/main.rs:31-45): command-line and configuration parsing. The `config` module is not part of this model.
- Logging setup, the `info!`/`warn!` messages and `std::process::exit` (src/main.rs:48-57, 79-87): output on a side channel only.
- Progress-bar styling and its length, which is taken from `file_list` (src/main.rs:67-74, 90): cosmetic. Only a tick count is kept.
- `ffmpeg::init` and capture-date extraction (`Photo::date`): foreign codecs. The date is an input field of the photo.
- The `.zip` branch (`zipfiles::process_zip_file`) and the `discovery` directory walk (src/main.rs:59-64): filesystem and archive I/O in modules that are not part of this model. The original-name path of the planner is modelled and exercised by `Planner.ArchiveEntryKeepsOriginalName`.
- Operating-system semantics of `create_dir_all`, `rename` and `copy` (permissions, cross-device moves, full disks, races): each call succeeds or fails as the oracle says. A rename or copy also fails when its source is missing.
- Paths are compared as strings and never normalised, so `a/b`, `a//b` and `a/./b` are three different files in the filesystem model although they name one file on disk. A destination root ending in `/` gives `dest//Y/MM/DD/name`, and relocating onto a file that already sits at `dest/Y/MM/DD/name` under its other spelling is a same-file rename or copy in Rust. The model treats it as a second entry instead.
- FileSystem.Copy: copying a file onto itself leaves it unchanged in the model. Rust's `std::fs::copy` would truncate it.
- FileSystem.MissingChain: it stops at the first ancestor that is a directory. An ancestor that exists as a regular file is not treated specially; the oracle decides the outcome.
- Relocator.MovePhoto: the kind of the error converted from `create_dir_all`'s `io::Error` by `into()` is not modelled. The `pserror` module is not part of this model, so the error only records the directory.
- `file_name.to_str().unwrap()` (src/main.rs:114): names are Dafny strings, so the panic on a non-UTF-8 file name is not modelled.
- Windows path prefixes and `\` separators: the path model is the Unix one.
- Panics from `unwrap` on a missing path, new path or date: modelled as preconditions (`Plannable`, `Movable`, `AllRelocatable`), not as behaviour.
