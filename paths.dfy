/**
 * The POSIX path operations the pipeline uses, on strings: `os.path.split`,
 * `os.path.dirname`, `os.path.join` of two parts, `os.path.isabs`, and the
 * resolution of a path to the names it walks through from the root.
 */
module Paths {
  import opened Wrappers

  /** The index of the last '/' in `p`, or -1 when there is none. */
  function LastSlash(p: string): (k: int)
    ensures -1 <= k < |p|
    ensures k >= 0 ==> p[k] == '/'
    ensures forall j :: k < j < |p| ==> p[j] != '/'
    decreases |p|
  {
    if |p| == 0 then -1
    else if p[|p| - 1] == '/' then |p| - 1
    else LastSlash(p[..|p| - 1])
  }

  /** `os.path.split(p)[1]`: the text after the last '/'. */
  function Tail(p: string): string {
    p[LastSlash(p) + 1..]
  }

  /** `os.path.split(p)[0]` before trailing slashes are stripped: the text up to the last '/'. */
  function Head(p: string): string {
    p[..LastSlash(p) + 1]
  }

  predicate AllSlashes(s: string) {
    forall i :: 0 <= i < |s| ==> s[i] == '/'
  }

  function StripTrailingSlashes(s: string): string
    decreases |s|
  {
    if |s| > 0 && s[|s| - 1] == '/' then StripTrailingSlashes(s[..|s| - 1]) else s
  }

  /** `os.path.dirname(p)`: the head, with trailing slashes removed unless it is all slashes. */
  function Dirname(p: string): string {
    var h := Head(p);
    if h != "" && !AllSlashes(h) then StripTrailingSlashes(h) else h
  }

  /** The path ends with '/', which POSIX resolves only through a directory. */
  predicate EndsWithSlash(p: string) {
    |p| > 0 && p[|p| - 1] == '/'
  }

  /** `os.path.isabs(p)`. */
  predicate IsAbs(p: string) {
    |p| > 0 && p[0] == '/'
  }

  /** `os.path.join(a, b)` with two arguments. */
  function PathJoin(a: string, b: string): string {
    if IsAbs(b) then b
    else if a == "" || a[|a| - 1] == '/' then a + b
    else a + "/" + b
  }

  /** What `os.path.join(a, b)` puts before a relative `b`: `a`, with a '/' added unless it is empty or ends with one. */
  function JoinBase(a: string): string {
    if a == "" || a[|a| - 1] == '/' then a else a + "/"
  }

  lemma PathJoinRelative(a: string, b: string)
    requires !IsAbs(b)
    ensures PathJoin(a, b) == JoinBase(a) + b
  {
  }

  /** The non-empty '/'-separated parts of `p`, in order. */
  function Components(p: string): (cs: seq<string>)
    decreases |p|
  {
    var k := LastSlash(p);
    if k < 0 then (if p == "" then [] else [p])
    else Components(p[..k]) + (if Tail(p) == "" then [] else [Tail(p)])
  }

  /** A name a directory entry can have: non-empty, no '/', neither "." nor "..". */
  predicate IsName(s: string) {
    s != "" && '/' !in s && s != "." && s != ".."
  }

  /**
   * The names a path walks through from the root: an absolute path from the
   * root, a relative one from the working directory `cwd`. The empty path names
   * nothing (`os.stat('')` fails). Paths with "." or ".." components are not
   * resolved by this model.
   */
  function Resolve(cwd: seq<string>, p: string): Option<seq<string>> {
    var cs := Components(p);
    if p == "" || exists i :: 0 <= i < |cs| && (cs[i] == "." || cs[i] == "..") then None
    else if IsAbs(p) then Some(cs)
    else Some(cwd + cs)
  }

  lemma TailNoSlash(p: string)
    ensures '/' !in Tail(p)
  {
    var k := LastSlash(p);
    forall j | 0 <= j < |Tail(p)| ensures Tail(p)[j] != '/' {
      assert Tail(p)[j] == p[k + 1 + j];
    }
  }

  lemma HeadTail(p: string)
    ensures p == Head(p) + Tail(p)
  {
  }

  /** Every component is non-empty and free of '/'. */
  lemma {:induction false} ComponentsShape(p: string)
    ensures forall i :: 0 <= i < |Components(p)| ==> Components(p)[i] != "" && '/' !in Components(p)[i]
    decreases |p|
  {
    var k := LastSlash(p);
    if k < 0 {
      assert '/' !in p by {
        forall j | 0 <= j < |p| ensures p[j] != '/' { }
      }
    } else {
      ComponentsShape(p[..k]);
      TailNoSlash(p);
    }
  }

  /** A path that ends with '/' has the components of the path without it. */
  lemma TrailingSlashComponents(h: string)
    requires |h| > 0 && h[|h| - 1] == '/'
    ensures Components(h) == Components(h[..|h| - 1])
  {
    assert LastSlash(h) == |h| - 1;
    assert Tail(h) == "";
  }

  lemma {:induction false} StripTrailingSlashesComponents(h: string)
    ensures Components(StripTrailingSlashes(h)) == Components(h)
    ensures StripTrailingSlashes(h) <= h
    decreases |h|
  {
    if |h| > 0 && h[|h| - 1] == '/' {
      StripTrailingSlashesComponents(h[..|h| - 1]);
      TrailingSlashComponents(h);
    }
  }

  /** A path made only of slashes is the root. */
  lemma {:induction false} AllSlashesComponents(h: string)
    requires AllSlashes(h)
    ensures Components(h) == []
    decreases |h|
  {
    if |h| > 0 {
      TrailingSlashComponents(h);
      AllSlashesComponents(h[..|h| - 1]);
    }
  }

  /** Stripping trailing slashes from a string that is not all slashes keeps a non-slash character. */
  lemma {:induction false} StripTrailingSlashesNonEmpty(h: string)
    requires !AllSlashes(h)
    ensures StripTrailingSlashes(h) != "" && !AllSlashes(StripTrailingSlashes(h))
    ensures StripTrailingSlashes(h)[|StripTrailingSlashes(h)| - 1] != '/'
    decreases |h|
  {
    if |h| > 0 && h[|h| - 1] == '/' {
      StripTrailingSlashesNonEmpty(h[..|h| - 1]);
    }
  }

  /** The head keeps everything of the path but its tail. */
  lemma HeadComponents(p: string)
    requires LastSlash(p) >= 0
    ensures Components(p) == Components(Head(p)) + (if Tail(p) == "" then [] else [Tail(p)])
  {
    var k := LastSlash(p);
    var h := Head(p);
    assert h[..k] == p[..k];
    TrailingSlashComponents(h);
  }

  /** Stripping the slashes that end a head shortens it. */
  lemma StripHeadShorter(h: string)
    requires |h| > 0 && h[|h| - 1] == '/' && !AllSlashes(h)
    ensures |StripTrailingSlashes(h)| < |h|
  {
    StripTrailingSlashesComponents(h);
    StripTrailingSlashesNonEmpty(h);
    var d := StripTrailingSlashes(h);
    assert d != h by { assert d[|d| - 1] != h[|h| - 1] || |d| != |h|; }
  }

  /** The dirname of a path without '/' is empty; otherwise it keeps the head's components. */
  lemma DirnameCases(p: string)
    ensures LastSlash(p) < 0 ==> Dirname(p) == "" && Tail(p) == p
    ensures LastSlash(p) >= 0 ==> Dirname(p) != "" && Components(Dirname(p)) == Components(Head(p))
    ensures LastSlash(p) >= 0 && !AllSlashes(Head(p)) ==> |Dirname(p)| < |Head(p)| && !AllSlashes(Dirname(p))
    ensures LastSlash(p) >= 0 && AllSlashes(Head(p)) ==> Dirname(p) == Head(p)
    ensures Dirname(p) <= Head(p)
  {
    var h := Head(p);
    if LastSlash(p) >= 0 {
      if !AllSlashes(h) {
        StripTrailingSlashesComponents(h);
        StripTrailingSlashesNonEmpty(h);
        StripHeadShorter(h);
      }
    }
  }

  /**
   * The components of a path are those of its dirname followed by its tail, if
   * the tail is not empty; the dirname is a prefix of the path, and shorter than
   * the path unless it is all slashes (the root) or empty.
   */
  lemma DirnameComponents(p: string)
    ensures Components(p) == Components(Dirname(p)) + (if Tail(p) == "" then [] else [Tail(p)])
    ensures Dirname(p) <= p
    ensures Dirname(p) == "" ==> LastSlash(p) < 0
    ensures Dirname(p) != "" && !AllSlashes(Dirname(p)) ==> |Dirname(p)| < |p|
    ensures Dirname(p) != "" && AllSlashes(Dirname(p)) ==> Components(Dirname(p)) == []
  {
    DirnamePrefix(p);
    if LastSlash(p) >= 0 {
      DirnameComponentsSlash(p);
    } else {
      DirnameComponentsNoSlash(p);
    }
  }

  /** `DirnameComponents` for a path without '/': the dirname is empty. */
  lemma DirnameComponentsNoSlash(p: string)
    requires LastSlash(p) < 0
    ensures Dirname(p) == ""
    ensures Components(p) == Components(Dirname(p)) + (if Tail(p) == "" then [] else [Tail(p)])
  {
    DirnameNoSlash(p);
    ComponentsEmpty();
    ComponentsUnderRoot(Dirname(p), p);
  }

  /** A path without '/' below a directory with no components: only its own name remains. */
  lemma ComponentsUnderRoot(d: string, p: string)
    requires Components(d) == [] && LastSlash(p) < 0
    ensures Components(p) == Components(d) + (if Tail(p) == "" then [] else [Tail(p)])
  {
    ComponentsNoSlash(p);
    assert [] + Components(p) == Components(p);
  }

  /** Without '/', the head and so the dirname are empty. */
  lemma DirnameNoSlash(p: string)
    requires LastSlash(p) < 0
    ensures Dirname(p) == ""
  {
    assert |Head(p)| == 0;
  }

  /** Without '/', the path is its only component, which is also its tail. */
  lemma ComponentsNoSlash(p: string)
    requires LastSlash(p) < 0
    ensures Components(p) == (if Tail(p) == "" then [] else [Tail(p)])
  {
    assert Tail(p) == p[0..] == p;
  }

  /** The empty path has no components. */
  lemma ComponentsEmpty()
    ensures Components("") == []
  {
  }

  /** The dirname of a path is a prefix of it. */
  lemma DirnamePrefix(p: string)
    ensures Dirname(p) <= p
  {
    DirnameCases(p);
    var h := Head(p);
    var d := Dirname(p);
    assert d == h[..|d|];
    assert h == p[..|h|];
    assert d == p[..|d|];
  }

  /** `DirnameComponents` for a path with a '/'. */
  lemma DirnameComponentsSlash(p: string)
    requires LastSlash(p) >= 0
    ensures Components(p) == Components(Dirname(p)) + (if Tail(p) == "" then [] else [Tail(p)])
    ensures Dirname(p) != ""
    ensures !AllSlashes(Dirname(p)) ==> |Dirname(p)| < |p|
    ensures AllSlashes(Dirname(p)) ==> Components(Dirname(p)) == []
  {
    DirnameCases(p);
    HeadComponents(p);
    if AllSlashes(Head(p)) {
      AllSlashesComponents(Head(p));
    }
  }

  /** A dirname ends with '/' only when it is all slashes, the root. */
  lemma DirnameNoTrailingSlash(p: string)
    ensures EndsWithSlash(Dirname(p)) ==> AllSlashes(Dirname(p))
  {
    var h := Head(p);
    if h != "" && !AllSlashes(h) {
      StripTrailingSlashesNonEmpty(h);
    }
  }
}
