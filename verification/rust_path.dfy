/**
  A lexical model of Rust's `std::path::Path` on Unix, as far as the photo
  planner and relocator use it: `Path::file_name` and `Path::parent`.

  Both are defined, as in the standard library, through one step of
  `Components::next_back`: the text after the last `/` of the body is read as
  a component; empty and `.` components are skipped over; a leading `/` is the
  root and a leading `./` the current directory, neither of which is part of
  the body. `parent` then trims trailing empty and `.` components from what is
  left (`Components::as_path`).
 */
module RustPath {
  import opened Wrappers

  datatype Component = RootDir | CurDir | ParentDir | Normal(name: string)

  /** A file-name component: non-empty, neither `.` nor `..`, and free of separators. */
  predicate IsPlainName(n: string) {
    && n != ""
    && n != "."
    && n != ".."
    && forall i :: 0 <= i < |n| ==> n[i] != '/'
  }

  predicate HasRoot(p: string) {
    |p| > 0 && p[0] == '/'
  }

  /** A relative path that starts with `.` followed by a separator or the end. */
  predicate IncludeCurDir(p: string) {
    !HasRoot(p) && |p| > 0 && p[0] == '.' && (|p| == 1 || p[1] == '/')
  }

  /** Length of the part in front of the body: the root or the leading `.`. */
  function BodyStart(p: string): (n: nat)
    ensures n <= 1 && n <= |p|
    ensures n == 1 <==> HasRoot(p) || IncludeCurDir(p)
  {
    if HasRoot(p) || IncludeCurDir(p) then 1 else 0
  }

  /** Reads one body component; empty and `.` components read as nothing. */
  function ParseSingle(c: string): (r: Option<Component>)
    ensures r.Some? ==> r.value.Normal? || r.value == ParentDir
    ensures r.None? <==> c == "" || c == "."
  {
    if c == "" || c == "." then None
    else if c == ".." then Some(ParentDir)
    else Some(Normal(c))
  }

  /** The index of the last separator in `p[lo..hi]`. */
  function LastSep(p: string, lo: nat, hi: nat): (r: Option<nat>)
    requires lo <= hi <= |p|
    ensures r.Some? ==> lo <= r.value < hi && p[r.value] == '/'
    ensures r.Some? ==> (forall j :: r.value < j < hi ==> p[j] != '/')
    ensures r.None? ==> (forall j :: lo <= j < hi ==> p[j] != '/')
    decreases hi - lo
  {
    if hi == lo then None
    else if p[hi - 1] == '/' then Some(hi - 1)
    else LastSep(p, lo, hi - 1)
  }

  /**
    `Components::parse_next_component_back`: the number of characters the last
    body component occupies (with its separator) and what it reads as.
   */
  function BackSegment(p: string): (r: (nat, Option<Component>))
    requires BodyStart(p) < |p|
    ensures 0 < r.0 <= |p| - BodyStart(p)
    ensures r.1.Some? && r.1.value.Normal? ==> IsPlainName(r.1.value.name)
    ensures r.1.Some? ==> r.1.value.Normal? || r.1.value == ParentDir
  {
    var start := BodyStart(p);
    match LastSep(p, start, |p|)
    case None => (|p| - start, ParseSingle(p[start..]))
    case Some(i) => (|p| - i, ParseSingle(p[i + 1..]))
  }

  /**
    `Components::next_back` on a fresh iterator: the last component of `p`,
    and the text that is left in front of it.
   */
  function NextBack(p: string): (r: (Option<Component>, string))
    ensures r.0.Some? ==> |r.1| < |p| && r.1 == p[..|r.1|]
    ensures r.0.Some? && r.0.value.Normal? ==> IsPlainName(r.0.value.name)
    decreases |p|
  {
    if BodyStart(p) < |p| then
      var (size, c) := BackSegment(p);
      var rest := p[..|p| - size];
      if c.Some? then (c, rest) else NextBack(rest)
    else if HasRoot(p) then (Some(RootDir), p[..|p| - 1])
    else if IncludeCurDir(p) then (Some(CurDir), p[..|p| - 1])
    else (None, p)
  }

  /** `Components::trim_right`: drops trailing empty and `.` body components. */
  function TrimRight(p: string): (q: string)
    ensures |q| <= |p| && q == p[..|q|]
    decreases |p|
  {
    if BodyStart(p) < |p| then
      var (size, c) := BackSegment(p);
      if c.Some? then p else TrimRight(p[..|p| - size])
    else p
  }

  /** `Path::file_name`: the last component when it is a normal name. */
  function FileName(p: string): (r: Option<string>)
    ensures r.Some? ==> IsPlainName(r.value)
  {
    match NextBack(p).0
    case Some(Normal(n)) => Some(n)
    case _ => None
  }

  /** `Path::parent`: the path without its last component, unless that is the root or nothing. */
  function Parent(p: string): (r: Option<string>)
    ensures r.Some? ==> |r.value| < |p| && r.value == p[..|r.value|]
  {
    var (c, rest) := NextBack(p);
    match c
    case Some(Normal(_)) => Some(TrimRight(rest))
    case Some(ParentDir) => Some(TrimRight(rest))
    case Some(CurDir) => Some(rest)
    case _ => None
  }

  /** The last separator of `p[lo..hi]` is the one at `k` when none follows it. */
  lemma LastSepAt(p: string, lo: nat, hi: nat, k: nat)
    requires lo <= k < hi <= |p| && p[k] == '/'
    requires forall j :: k < j < hi ==> p[j] != '/'
    ensures LastSep(p, lo, hi) == Some(k)
  {
  }

  /** The last body component of `a/n`, for a plain name `n`, is `n` itself. */
  lemma BackSegmentOfJoin(a: string, n: string)
    requires IsPlainName(n)
    ensures BodyStart(a + "/" + n) < |a + "/" + n|
    ensures BackSegment(a + "/" + n).1 == Some(Normal(n))
    ensures var s := a + "/" + n;
      s[..|s| - BackSegment(s).0] == if a == "" then "/" else a
  {
    var s := a + "/" + n;
    var start := BodyStart(s);
    assert s[|a|] == '/';
    assert s[|a| + 1..] == n;
    assert forall j :: |a| < j < |s| ==> s[j] == n[j - |a| - 1];
    if a == "" {
      assert HasRoot(s) && start == 1;
      assert LastSep(s, start, |s|).None?;
    } else {
      LastSepAt(s, start, |s|, |a|);
      assert s[..|a|] == a;
    }
  }

  /** `a/n` has file name `n` and parent `a` (the root when `a` is empty). */
  lemma NextBackOfJoin(a: string, n: string)
    requires IsPlainName(n)
    ensures NextBack(a + "/" + n) == (Some(Normal(n)), if a == "" then "/" else a)
    ensures FileName(a + "/" + n) == Some(n)
  {
    BackSegmentOfJoin(a, n);
  }

  /** A path ending in a plain name has nothing to trim. */
  lemma TrimRightOfJoin(a: string, n: string)
    requires IsPlainName(n)
    ensures TrimRight(a + "/" + n) == a + "/" + n
  {
    BackSegmentOfJoin(a, n);
  }

  /**
    One step back over `a/n` + `t`: either the component read is a body
    component, or it was empty or `.` and what is left is `a/n` + `t'` for a
    shorter `t'`.
   */
  lemma BackSegmentAfterPlain(a: string, n: string, t: string) returns (t': string)
    requires IsPlainName(n)
    ensures BodyStart(a + "/" + n + t) < |a + "/" + n + t|
    ensures var s := a + "/" + n + t;
      BackSegment(s).1.None? ==>
        |t'| < |t| && s[..|s| - BackSegment(s).0] == a + "/" + n + t'
  {
    var s := a + "/" + n + t;
    t' := t;
    if t == "" {
      assert s == a + "/" + n;
      BackSegmentOfJoin(a, n);
      return;
    }
    var k := |a| + 1 + |n|;
    var start := BodyStart(s);
    assert s[|a|] == '/';
    assert forall j :: |a| < j < k ==> s[j] == n[j - |a| - 1];
    match LastSep(s, start, |s|)
    case Some(i) =>
      if i >= k {
        t' := t[..i - k];
        assert s[..i] == a + "/" + n + t';
      } else {
        assert i == |a|;
        assert s[i + 1..] == n + t;
        assert (n + t)[..|n|] == n;
      }
    case None =>
      assert a == "";
      assert s[start..] == n + t;
      assert (n + t)[..|n|] == n;
  }

  /**
    Whatever follows a plain component `n` in `a/n` + `t`, reading from the
    back meets a normal or `..` component no later than `n`: the root is never
    reached, so such a path always has a parent.
   */
  lemma {:induction false} NextBackStopsInBody(a: string, n: string, t: string)
    requires IsPlainName(n)
    ensures var c := NextBack(a + "/" + n + t).0;
      c.Some? && (c.value.Normal? || c.value == ParentDir)
    decreases |t|
  {
    var t' := BackSegmentAfterPlain(a, n, t);
    var s := a + "/" + n + t;
    if BackSegment(s).1.None? {
      NextBackStopsInBody(a, n, t');
    }
  }

  /** Corollary: a path with a plain component after a separator has a parent. */
  lemma ParentExistsAfterPlainComponent(a: string, n: string, t: string)
    requires IsPlainName(n)
    ensures Parent(a + "/" + n + t).Some?
  {
    NextBackStopsInBody(a, n, t);
  }
}
