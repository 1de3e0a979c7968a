/**
  Destination planning (`update_photo_new_path`, `update_new_path`): a photo
  taken on Y-M-D and called `name` goes to `dest/Y/MM/DD/name`.
 */
module Planner {
  import opened Wrappers
  import opened Decimal
  import opened RustPath
  import opened Media

  /** The dated directory `dest/Y/MM/DD`. */
  function DatedDir(dest: string, date: Date): string {
    dest + "/" + IntToString(date.year) + "/" + Pad2(date.month) + "/" + Pad2(date.day)
  }

  /** The destination `dest/Y/MM/DD/name`, as the `format!` on src/main.rs:120 builds it. */
  function PlannedPath(dest: string, date: Date, name: string): string {
    DatedDir(dest, date) + "/" + name
  }

  /**
    A planned path always has a parent directory, whatever the name; when the
    name is a plain file name, the path's file name is that name and its parent
    is exactly the dated directory.
   */
  lemma PlannedPathComponents(dest: string, date: Date, name: string)
    ensures Parent(PlannedPath(dest, date, name)).Some?
    ensures IsPlainName(name) ==> FileName(PlannedPath(dest, date, name)) == Some(name)
    ensures IsPlainName(name) ==> Parent(PlannedPath(dest, date, name)) == Some(DatedDir(dest, date))
  {
    var monthDir := dest + "/" + IntToString(date.year) + "/" + Pad2(date.month);
    var day := Pad2(date.day);
    DigitsArePlain(day);
    assert PlannedPath(dest, date, name) == monthDir + "/" + day + ("/" + name);
    ParentExistsAfterPlainComponent(monthDir, day, "/" + name);
    if IsPlainName(name) {
      NextBackOfJoin(DatedDir(dest, date), name);
      TrimRightOfJoin(monthDir, day);
    }
  }

  /** Decimal renderings are plain path components. */
  lemma DigitsArePlain(s: string)
    requires |s| >= 1
    requires forall k :: 0 <= k < |s| ==> IsDigit(s[k]) || s[k] == '-'
    ensures IsPlainName(s)
  {
    assert s[0] != '.';
  }

  /** The name kept at the destination: the archive's original name when given, else the file's own. */
  function ChosenName(fileName: string, originalName: Option<string>): string {
    match originalName
    case None => fileName
    case Some(n) => n
  }

  /**
    What `update_photo_new_path` needs of its caller: a current path (it is
    unwrapped), and a capture date whenever that path has a file name.
   */
  predicate Plannable(photo: Photo) {
    photo.path.Some? && (FileName(photo.path.value).Some? ==> photo.date.Some?)
  }

  /** `update_photo_new_path`: assigns the dated destination, or leaves the photo alone. */
  function UpdatePhotoNewPath(dest: string, photo: Photo, originalName: Option<string>): (r: Photo)
    requires Plannable(photo)
    ensures r.path == photo.path && r.date == photo.date
    ensures FileName(photo.path.value).None? ==> r == photo
    ensures FileName(photo.path.value).Some? ==>
      r.newPath == Some(PlannedPath(dest, photo.date.value, ChosenName(FileName(photo.path.value).value, originalName)))
    ensures FileName(photo.path.value).Some? ==> r.newPath.Some? && Parent(r.newPath.value).Some?
    ensures FileName(photo.path.value).Some? && originalName.None? ==>
      && FileName(r.newPath.value) == FileName(photo.path.value)
      && Parent(r.newPath.value) == Some(DatedDir(dest, photo.date.value))
    ensures FileName(photo.path.value).Some? && originalName.Some? && IsPlainName(originalName.value) ==>
      && FileName(r.newPath.value) == originalName
      && Parent(r.newPath.value) == Some(DatedDir(dest, photo.date.value))
  {
    match FileName(photo.path.value)
    case None => photo
    case Some(fileName) =>
      var name := ChosenName(fileName, originalName);
      PlannedPathComponents(dest, photo.date.value, name);
      photo.(newPath := Some(PlannedPath(dest, photo.date.value, name)))
  }

  /** `update_new_path`: plans every photo of the list in place, never with an original name. */
  function UpdateNewPath(dest: string, photos: seq<Photo>): (r: seq<Photo>)
    requires forall i :: 0 <= i < |photos| ==> Plannable(photos[i])
    ensures |r| == |photos|
    ensures forall i :: 0 <= i < |photos| ==> r[i] == UpdatePhotoNewPath(dest, photos[i], None)
  {
    if photos == [] then []
    else [UpdatePhotoNewPath(dest, photos[0], None)] + UpdateNewPath(dest, photos[1..])
  }

  /**
    Reads a destination path back into capture date and file name: the last
    component is the name, the three before it are year, month and day.
   */
  function ReadBack(p: string): Option<(Date, string)> {
    var name, dayDir := FileName(p), Parent(p);
    if name.None? || dayDir.None? then None else
    var dd, monthDir := FileName(dayDir.value), Parent(dayDir.value);
    if dd.None? || monthDir.None? then None else
    var mm, yearDir := FileName(monthDir.value), Parent(monthDir.value);
    if mm.None? || yearDir.None? then None else
    var yy := FileName(yearDir.value);
    if yy.None? then None else
    var y, m, d := ParseInt(yy.value), ParseNat(mm.value), ParseNat(dd.value);
    if y.None? || m.None? || d.None? then None
    else Some((Date(y.value, m.value, d.value), name.value))
  }

  /**
    The layout is unambiguous: from a planned path one recovers exactly the
    capture date and the name it was planned with, whatever the destination root.
   */
  lemma PlannedPathReadBack(dest: string, date: Date, name: string)
    requires IsPlainName(name)
    ensures ReadBack(PlannedPath(dest, date, name)) == Some((date, name))
  {
    var y, m, d := IntToString(date.year), Pad2(date.month), Pad2(date.day);
    DigitsArePlain(y);
    DigitsArePlain(m);
    DigitsArePlain(d);
    var yearDir := dest + "/" + y;
    var monthDir := yearDir + "/" + m;
    var dayDir := monthDir + "/" + d;
    assert dayDir == DatedDir(dest, date);
    NextBackOfJoin(dayDir, name);
    TrimRightOfJoin(monthDir, d);
    NextBackOfJoin(monthDir, d);
    TrimRightOfJoin(yearDir, m);
    NextBackOfJoin(yearDir, m);
    TrimRightOfJoin(dest, y);
    NextBackOfJoin(dest, y);
    IntRoundTrip(date.year);
    Pad2RoundTrip(date.month);
    Pad2RoundTrip(date.day);
  }

  /**
    The destination `update_photo_new_path` assigns reads back as the photo's
    capture date and the name it chose, so no two photos with different dates
    or names are planned onto the same path.
   */
  lemma PlannedPhotoReadsBack(dest: string, photo: Photo, originalName: Option<string>)
    requires Plannable(photo) && FileName(photo.path.value).Some?
    requires originalName.Some? ==> IsPlainName(originalName.value)
    ensures var r := UpdatePhotoNewPath(dest, photo, originalName);
      var name := ChosenName(FileName(photo.path.value).value, originalName);
      && r.newPath.Some?
      && ReadBack(r.newPath.value) == Some((photo.date.value, name))
  {
    var name := ChosenName(FileName(photo.path.value).value, originalName);
    assert IsPlainName(name);
    PlannedPathReadBack(dest, photo.date.value, name);
  }

  /** The date 2021-01-09 renders as `2021`, `01`, `09`. */
  lemma DateRendering()
    ensures IntToString(2021) == "2021" && Pad2(1) == "01" && Pad2(9) == "09"
  {
    assert NatToString(2) == "2";
    assert NatToString(20) == "20";
    assert NatToString(202) == "202";
  }

  /**
    An archive entry taken on 2021-01-09, extracted to a temporary file and
    planned under the original name `IMG_001.jpg`, lands at
    `/out/2021/01/09/IMG_001.jpg`, whatever the temporary file's path: its
    directory and name do not show up. The bare original name is supplied by the archive code, which
    is not part of this model; a name with a directory in it would keep it.
   */
  lemma ArchiveEntryKeepsOriginalName(tmpPath: string)
    requires FileName(tmpPath).Some?
    ensures var photo := Photo(Some(tmpPath), Some(Date(2021, 1, 9)), None);
      UpdatePhotoNewPath("/out", photo, Some("IMG_001.jpg")).newPath == Some("/out/2021/01/09/IMG_001.jpg")
  {
    ArchiveEntryPath();
  }

  lemma ArchiveEntryPath()
    ensures PlannedPath("/out", Date(2021, 1, 9), "IMG_001.jpg") == "/out/2021/01/09/IMG_001.jpg"
  {
    DateRendering();
    assert DatedDir("/out", Date(2021, 1, 9)) == "/out/2021/01/09";
  }
}
