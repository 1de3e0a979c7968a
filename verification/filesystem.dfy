/**
  An abstract filesystem: a set of directories and a map from file paths to
  contents. The three calls `move_photo` makes into it (`create_dir_all`,
  `rename`, `copy`) succeed or fail as an oracle argument says; the operating
  system's reasons for failing are not modelled.
 */
module FileSystem {
  import opened Wrappers
  import opened RustPath

  newtype byte = b: int | 0 <= b < 256

  type Bytes = seq<byte>

  datatype Fs = Fs(dirs: set<string>, files: map<string, Bytes>)

  /** `Path::exists`: something, directory or file, is at `p`. */
  predicate Exists(fs: Fs, p: string) {
    p in fs.dirs || p in fs.files
  }

  /** The two file maps agree on every path outside `changed`. */
  ghost predicate SameFilesExcept(a: map<string, Bytes>, b: map<string, Bytes>, changed: set<string>) {
    forall f :: f !in changed ==> (f in a <==> f in b) && (f in a && f in b ==> a[f] == b[f])
  }

  /**
    The directories `create_dir_all(d)` has to make, outermost first: `d` and
    its ancestors up to the nearest one that exists (the empty path counts as
    existing, as it does for `create_dir_all`).
   */
  function MissingChain(dirs: set<string>, d: string): (chain: seq<string>)
    ensures chain == [] <==> d == "" || d in dirs
    ensures chain != [] ==> chain[|chain| - 1] == d
    ensures forall i :: 0 <= i < |chain| ==> chain[i] !in dirs && chain[i] != ""
    ensures forall i :: 0 < i < |chain| ==> Parent(chain[i]) == Some(chain[i - 1])
    ensures forall i, j :: 0 <= i < j < |chain| ==> |chain[i]| < |chain[j]|
    ensures chain != [] ==>
      var top := Parent(chain[0]);
      top.None? || top.value == "" || top.value in dirs
    decreases |d|
  {
    if d == "" || d in dirs then []
    else match Parent(d)
      case None => [d]
      case Some(p) => MissingChain(dirs, p) + [d]
  }

  function Elements(s: seq<string>): (r: set<string>)
    ensures forall x :: x in r <==> x in s
  {
    set x | x in s
  }

  /**
    `create_dir_all(d)`. With `failAt == None` every missing directory is made.
    With `failAt == Some(k)` the call fails after making the first `k` of them
    (never `d` itself), unless there is nothing to make.
    The result is the new filesystem and whether the call succeeded.
   */
  function CreateDirAll(fs: Fs, d: string, failAt: Option<nat>): (r: (Fs, bool))
    ensures r.0.files == fs.files
    ensures fs.dirs <= r.0.dirs
    ensures forall x :: x in r.0.dirs && x !in fs.dirs ==> x in MissingChain(fs.dirs, d)
    ensures r.1 <==> failAt.None? || MissingChain(fs.dirs, d) == []
    ensures r.1 ==> forall x :: x in MissingChain(fs.dirs, d) ==> x in r.0.dirs
    ensures r.1 ==> d == "" || d in r.0.dirs
    ensures !r.1 ==> d !in r.0.dirs
  {
    var chain := MissingChain(fs.dirs, d);
    match failAt
    case None => (fs.(dirs := fs.dirs + Elements(chain)), true)
    case Some(k) =>
      if chain == [] then (fs, true)
      else
        var made := chain[..if k < |chain| - 1 then k else |chain| - 1];
        assert forall x :: x in made ==> |x| < |d|;
        (fs.(dirs := fs.dirs + Elements(made)), false)
  }

  /** `rename(src, dst)`: succeeds when the oracle allows it and `src` is a file. */
  function Rename(fs: Fs, src: string, dst: string, fails: bool): (r: Fs)
    ensures r.dirs == fs.dirs
    ensures fails || src !in fs.files ==> r == fs
    ensures !fails && src in fs.files ==>
      && dst in r.files && r.files[dst] == fs.files[src]
      && (src != dst ==> src !in r.files)
    ensures SameFilesExcept(fs.files, r.files, {src, dst})
  {
    if fails || src !in fs.files then fs
    else fs.(files := (fs.files - {src})[dst := fs.files[src]])
  }

  /**
    How a `copy` goes wrong. `std::fs::copy` opens the source, then creates or
    truncates the destination, then writes the bytes: a failure before the
    destination is opened changes nothing, one after it leaves the destination
    holding the bytes written so far.
   */
  datatype CopyFault = NoFault | BeforeWrite | AfterWriting(written: nat)

  /** `copy(src, dst)`: succeeds when the oracle reports no fault and `src` is a file. */
  function Copy(fs: Fs, src: string, dst: string, fault: CopyFault): (r: Fs)
    ensures r.dirs == fs.dirs
    ensures fault.BeforeWrite? || src !in fs.files ==> r == fs
    ensures fault.NoFault? && src in fs.files ==>
      && src in r.files && r.files[src] == fs.files[src]
      && dst in r.files && r.files[dst] == fs.files[src]
    ensures fault.AfterWriting? && src in fs.files ==>
      && dst in r.files && r.files[dst] <= fs.files[src]
      && |r.files[dst]| == (if fault.written < |fs.files[src]| then fault.written else |fs.files[src]|)
    ensures fs.files.Keys <= r.files.Keys
    ensures SameFilesExcept(fs.files, r.files, {dst})
  {
    if src !in fs.files then fs
    else
      var contents := fs.files[src];
      match fault
      case BeforeWrite => fs
      case NoFault => fs.(files := fs.files[dst := contents])
      case AfterWriting(k) =>
        fs.(files := fs.files[dst := contents[..if k < |contents| then k else |contents|]])
  }
}
