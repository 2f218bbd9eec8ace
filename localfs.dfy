/**
 * The local filesystem as mutable state, `os.path.exists`, `os.path.isdir`,
 * `os.mkdir`, and `mkdir_recursive` (pipeline/core.py).
 */
module LocalFs {
  import opened Wrappers
  import opened Paths
  import opened FileTree

  /** The errors `os.mkdir` raises. */
  datatype OsError =
    | FileNotFound   // the parent is missing, or the path is empty
    | FileExists
    | NotADirectory  // the parent, or a directory on the way to it, is not a directory
    | Unresolvable   // a path with "." or ".." components, which this model does not resolve

  /**
   * The path resolves to a non-directory but ends with '/': `os.stat` then
   * fails with ENOTDIR, although `os.mkdir` still finds the entry there.
   */
  predicate SlashedFile(root: Node, cwd: seq<string>, p: string) {
    Resolve(cwd, p).Some? && Lookup(root, Resolve(cwd, p).value).Some? &&
    !Lookup(root, Resolve(cwd, p).value).value.Dir? && EndsWithSlash(p)
  }

  /** The node `os.stat` finds at a path from the working directory `cwd`, if any. */
  function At(root: Node, cwd: seq<string>, p: string): Option<Node> {
    if SlashedFile(root, cwd, p) then None
    else match Resolve(cwd, p)
      case None => None
      case Some(t) => Lookup(root, t)
  }

  /** `os.path.exists(p)`. */
  predicate Exists(root: Node, cwd: seq<string>, p: string) {
    At(root, cwd, p).Some?
  }

  /** `os.path.isdir(p)`. */
  predicate IsDir(root: Node, cwd: seq<string>, p: string) {
    At(root, cwd, p).Some? && At(root, cwd, p).value.Dir?
  }

  /**
   * A path exists exactly when it resolves to an entry, unless it ends with
   * '/' and the entry is not a directory; every directory exists.
   */
  lemma ExistsResolved(root: Node, cwd: seq<string>, p: string)
    ensures Exists(root, cwd, p) <==>
      Resolve(cwd, p).Some? && Lookup(root, Resolve(cwd, p).value).Some? &&
      (EndsWithSlash(p) ==> Lookup(root, Resolve(cwd, p).value).value.Dir?)
    ensures IsDir(root, cwd, p) ==> Exists(root, cwd, p)
  {
  }

  /** `os.path.exists(p + "/")` is `os.path.isdir(p)`, and so is `os.path.isdir(p + "/")`. */
  lemma TrailingSlashMeansDir(root: Node, cwd: seq<string>, p: string)
    requires p != ""
    ensures Exists(root, cwd, p + "/") <==> IsDir(root, cwd, p)
    ensures IsDir(root, cwd, p + "/") <==> IsDir(root, cwd, p)
  {
    var q := p + "/";
    TrailingSlashComponents(q);
    assert q[..|q| - 1] == p;
    assert IsAbs(q) == IsAbs(p);
    assert Resolve(cwd, q) == Resolve(cwd, p);
  }

  /**
   * With a regular file "f" in the root as working directory: "f" exists but
   * "f/" does not, and `mkdir_recursive("f/")` cannot succeed.
   */
  lemma SlashedFileExample()
    ensures Exists(Dir("", [File("f")]), [], "f")
    ensures !Exists(Dir("", [File("f")]), [], "f/")
    ensures !MkdirDone(Dir("", [File("f")]), Dir("", [File("f")]), [], "f/", true)
  {
    var root := Dir("", [File("f")]);
    assert LastSlash("f") == -1;
    assert Components("f") == ["f"];
    assert LastSlash("f/") == 1 && "f/"[..1] == "f" && Tail("f/") == "";
    assert Components("f/") == ["f"];
    assert Find(root.children, "f") == Some(0);
    assert Lookup(root, ["f"]) == Some(File("f"));
  }

  /**
   * With a regular file "f" in the root, the parent of "/f/a/b" is missing
   * because a non-directory is on the way to it, so `os.mkdir` reports ENOTDIR.
   */
  lemma BlockedParentExample()
    ensures Lookup(Dir("", [File("f")]), ["f", "a"]).None?
    ensures !NoFileOnTheWay(Dir("", [File("f")]), ["f", "a"])
  {
    var root := Dir("", [File("f")]);
    assert Find(root.children, "f") == Some(0);
    assert ["f", "a"][..1] == ["f"];
    assert Lookup(root, ["f"]) == Some(File("f"));
  }

  /** The tree after creating an empty directory at names `t`, when its parent is a directory and `t` is free. */
  function WithDir(n: Node, t: seq<string>): Node
    decreases |t|
  {
    if t == [] || !n.Dir? then n
    else match Find(n.children, t[0])
      case None => if |t| == 1 then n.(children := n.children + [Dir(t[0], [])]) else n
      case Some(i) =>
        if |t| == 1 then n else n.(children := n.children[i := WithDir(n.children[i], t[1..])])
  }

  /** Everything that existed still exists with its kind, and files are unchanged. */
  ghost predicate Grows(before: Node, after: Node) {
    forall q :: Lookup(before, q).Some? ==>
      Lookup(after, q).Some? &&
      (Lookup(before, q).value.Dir? <==> Lookup(after, q).value.Dir?) &&
      (!Lookup(before, q).value.Dir? ==> Lookup(after, q) == Lookup(before, q))
  }

  /** Everything that is new lies on the way to the names `t`. */
  ghost predicate CreatedAlong(before: Node, after: Node, t: seq<string>) {
    forall q :: Lookup(after, q).Some? && Lookup(before, q).None? ==> q <= t
  }

  /** What a path leads through are directories. */
  lemma {:induction false} LookupPrefix(n: Node, p: seq<string>, q: seq<string>)
    requires Lookup(n, p).Some? && q < p
    ensures Lookup(n, q).Some? && Lookup(n, q).value.Dir?
    decreases |p|
  {
    if q != [] {
      var i := Find(n.children, p[0]).value;
      assert q[0] == p[0];
      assert q[1..] < p[1..];
      LookupPrefix(n.children[i], p[1..], q[1..]);
    }
  }

  /** Creating a directory makes it, with nothing in it. */
  lemma {:induction false} WithDirTarget(n: Node, t: seq<string>)
    requires |t| >= 1 && Lookup(n, t[..|t| - 1]).Some? && Lookup(n, t[..|t| - 1]).value.Dir?
    requires Lookup(n, t).None?
    ensures Lookup(WithDir(n, t), t) == Some(Dir(t[|t| - 1], []))
    decreases |t|
  {
    if |t| == 1 {
      var ch := n.children + [Dir(t[0], [])];
      assert Find(n.children, t[0]).None?;
      assert Find(ch, t[0]) == Some(|n.children|) by { FindLast(n.children, Dir(t[0], [])); }
    } else {
      var i := Find(n.children, t[0]).value;
      var c := n.children[i];
      var ch := n.children[i := WithDir(c, t[1..])];
      assert t[1..][..|t[1..]| - 1] == t[..|t| - 1][1..];
      WithDirTarget(c, t[1..]);
      FindUpdate(n.children, i, WithDir(c, t[1..]));
      assert WithDir(c, t[1..]).name == c.name by { WithDirName(c, t[1..]); }
    }
  }

  lemma WithDirName(n: Node, t: seq<string>)
    ensures WithDir(n, t).name == n.name
  {
  }

  lemma {:induction false} FindLast(ch: seq<Node>, x: Node)
    requires Find(ch, x.name).None?
    ensures Find(ch + [x], x.name) == Some(|ch|)
    decreases |ch|
  {
    if ch != [] {
      assert (ch + [x])[1..] == ch[1..] + [x];
      FindLast(ch[1..], x);
    }
  }

  /** Replacing an entry by one of the same name leaves every name lookup where it was. */
  lemma FindUpdate(ch: seq<Node>, i: nat, x: Node)
    requires i < |ch| && x.name == ch[i].name
    ensures forall s :: Find(ch[i := x], s) == Find(ch, s)
    decreases |ch|
  {
    forall s ensures Find(ch[i := x], s) == Find(ch, s) {
      FindUpdateAt(ch, i, x, s);
    }
  }

  lemma {:induction false} FindUpdateAt(ch: seq<Node>, i: nat, x: Node, s: string)
    requires i < |ch| && x.name == ch[i].name
    ensures Find(ch[i := x], s) == Find(ch, s)
    decreases |ch|
  {
    if i > 0 {
      assert ch[i := x][1..] == ch[1..][i - 1 := x];
      FindUpdateAt(ch[1..], i - 1, x, s);
    }
  }

  lemma {:induction false} FindAppend(ch: seq<Node>, x: Node, s: string)
    requires s != x.name
    ensures Find(ch + [x], s) == Find(ch, s)
    decreases |ch|
  {
    if ch != [] {
      assert (ch + [x])[1..] == ch[1..] + [x];
      FindAppend(ch[1..], x, s);
    }
  }

  /** Creating a directory at `t` changes no lookup off the way to `t`. */
  lemma {:induction false} WithDirElsewhere(n: Node, t: seq<string>, q: seq<string>)
    requires !(q <= t)
    ensures Lookup(WithDir(n, t), q) == Lookup(n, q)
    decreases |t|
  {
    if t != [] && n.Dir? && q != [] {
      match Find(n.children, t[0])
      case None =>
        if |t| == 1 {
          var x := Dir(t[0], []);
          if q[0] == t[0] {
            // q goes below the new, empty directory
            assert |q| > 1;
            assert Find(n.children + [x], t[0]) == Some(|n.children|) by { FindLast(n.children, x); }
          } else {
            FindAppend(n.children, x, q[0]);
          }
        }
      case Some(i) =>
        if |t| > 1 {
          var c := n.children[i];
          FindUpdate(n.children, i, WithDir(c, t[1..]));
          WithDirName(c, t[1..]);
          if q[0] == t[0] {
            assert !(q[1..] <= t[1..]);
            WithDirElsewhere(c, t[1..], q[1..]);
          }
        }
    }
  }

  /** Creating a directory where the parent is a directory and nothing is yet grows the tree along `t` only. */
  lemma WithDirGrows(n: Node, t: seq<string>)
    requires |t| >= 1 && Lookup(n, t[..|t| - 1]).Some? && Lookup(n, t[..|t| - 1]).value.Dir?
    requires Lookup(n, t).None?
    ensures Grows(n, WithDir(n, t)) && CreatedAlong(n, WithDir(n, t), t)
    ensures Lookup(WithDir(n, t), t) == Some(Dir(t[|t| - 1], []))
  {
    var m := WithDir(n, t);
    WithDirTarget(n, t);
    forall q | Lookup(n, q).Some?
      ensures Lookup(m, q).Some? && (Lookup(n, q).value.Dir? <==> Lookup(m, q).value.Dir?) &&
              (!Lookup(n, q).value.Dir? ==> Lookup(m, q) == Lookup(n, q))
    {
      if q <= t {
        assert q != t;
        assert q < t;
        LookupPrefix(m, t, q);
        if q == t[..|t| - 1] {
        } else {
          assert q < t[..|t| - 1];
          LookupPrefix(n, t[..|t| - 1], q);
        }
      } else {
        WithDirElsewhere(n, t, q);
      }
    }
    forall q | Lookup(m, q).Some? && Lookup(n, q).None? ensures q <= t {
      if !(q <= t) { WithDirElsewhere(n, t, q); }
    }
  }

  /** Creating a directory with a proper name keeps the tree well formed. */
  lemma {:induction false} WithDirWellFormed(n: Node, t: seq<string>)
    requires WellFormed(n) && |t| >= 1 && IsName(t[|t| - 1])
    ensures WellFormed(WithDir(n, t))
    decreases |t|
  {
    if n.Dir? {
      match Find(n.children, t[0])
      case None =>
        if |t| == 1 {
          var ch := n.children + [Dir(t[0], [])];
          forall c | c in ch ensures IsName(c.name) && WellFormed(c) {
            if c !in n.children { assert c == Dir(t[0], []); }
          }
        }
      case Some(i) =>
        if |t| > 1 {
          var c := n.children[i];
          var c' := WithDir(c, t[1..]);
          assert c in n.children;
          WithDirWellFormed(c, t[1..]);
          WithDirName(c, t[1..]);
          var ch := n.children[i := c'];
          forall x | x in ch ensures IsName(x.name) && WellFormed(x) {
            var k :| 0 <= k < |ch| && ch[k] == x;
            if k != i { assert x == n.children[k]; assert n.children[k] in n.children; }
          }
        }
    }
  }

  /** The names a resolved path leads through, after the working directory, are proper names. */
  lemma ResolveNames(cwd: seq<string>, p: string)
    requires Resolve(cwd, p).Some? && Components(p) != []
    ensures Resolve(cwd, p).value != [] && IsName(Components(p)[|Components(p)| - 1])
    ensures Resolve(cwd, p).value[|Resolve(cwd, p).value| - 1] == Components(p)[|Components(p)| - 1]
  {
    ComponentsShape(p);
  }

  /**
   * Lines 33-35 of `mkdir_recursive` as written: the argument of its recursive
   * call, made whenever `dirname(path)` does not exist.
   */
  function RecursionAsWritten(root: Node, cwd: seq<string>, path: string): (r: Option<string>)
    ensures r.Some? <==> !Exists(root, cwd, Dirname(path))
    ensures r.Some? ==> r.value == Dirname(path)
  {
    var sub := Dirname(path);
    if !Exists(root, cwd, sub) then Some(sub) else None
  }

  /**
   * As written, `mkdir_recursive` of a relative name never finishes: the name's
   * dirname is "", which never exists, and the call for "" calls itself with "".
   */
  lemma MkdirRelativeDiverges(root: Node, cwd: seq<string>, name: string)
    requires IsName(name)
    ensures RecursionAsWritten(root, cwd, name) == Some("")
    ensures RecursionAsWritten(root, cwd, "") == Some("")
  {
    assert LastSlash(name) < 0;
    assert Head(name) == "";
    assert Dirname("") == "";
  }

  /**
   * On an absolute path the dirname is never "", so the guard `sub != ""` of
   * `FileSystem.MkdirRecursive` never fires there: its recursion is made exactly
   * when the recursion as written is.
   */
  lemma RecursionAsWrittenAbsolute(root: Node, cwd: seq<string>, path: string)
    requires IsAbs(path)
    ensures Dirname(path) != ""
    ensures RecursionAsWritten(root, cwd, path).Some? <==> Dirname(path) != "" && !Exists(root, cwd, Dirname(path))
  {
    DirnameComponents(path);
    assert path[0] == '/';
  }

  /** The local filesystem: its root directory and the process's working directory. */
  class FileSystem {
    var root: Node
    var cwd: seq<string>

    ghost predicate Valid()
      reads this
    {
      root.Dir? && WellFormed(root) && Lookup(root, cwd).Some? && Lookup(root, cwd).value.Dir?
    }

    constructor (root: Node, cwd: seq<string>)
      requires root.Dir? && WellFormed(root) && Lookup(root, cwd).Some? && Lookup(root, cwd).value.Dir?
      ensures Valid() && this.root == root && this.cwd == cwd
    {
      this.root := root;
      this.cwd := cwd;
    }

    /**
     * `os.mkdir(path)`: an entry already at the path is EEXIST (even one named
     * with a trailing '/'); a missing parent is ENOENT, unless a non-directory
     * on the way to it makes it ENOTDIR; a parent that is not a directory is ENOTDIR.
     */
    method Mkdir(path: string) returns (r: Result<(), OsError>)
      requires Valid()
      modifies this
      ensures Valid() && cwd == old(cwd)
      ensures MkdirStep(old(root), root, cwd, path, r.Ok?)
      ensures r.Ok? ==> root == WithDir(old(root), Resolve(cwd, path).value)
      ensures Resolve(cwd, path).None? ==> r == Err(if path == "" then FileNotFound else Unresolvable)
      ensures Resolve(cwd, path).Some? && Lookup(old(root), Resolve(cwd, path).value).Some? ==> r == Err(FileExists)
      ensures Resolve(cwd, path).Some? && Lookup(old(root), Resolve(cwd, path).value).None? && r.Err? ==>
        var t := Resolve(cwd, path).value;
        |t| >= 1 &&
        r.error == if Lookup(old(root), t[..|t| - 1]).None? && NoFileOnTheWay(old(root), t[..|t| - 1])
                   then FileNotFound else NotADirectory
    {
      var t := Resolve(cwd, path);
      if t.None? {
        return Err(if path == "" then FileNotFound else Unresolvable);
      }
      if Lookup(root, t.value).Some? {
        return Err(FileExists);
      }
      var names := t.value;
      ResolvedFresh(root, cwd, path);
      var parent := Lookup(root, names[..|names| - 1]);
      if parent.None? {
        return Err(if NoFileOnTheWay(root, names[..|names| - 1]) then FileNotFound else NotADirectory);
      }
      if !parent.value.Dir? {
        return Err(NotADirectory);
      }
      Created(root, cwd, path);
      root := WithDir(root, names);
      r := Ok(());
    }

    /** A path that resolves to names that do not exist yet names an entry, not the root or the working directory. */
    static lemma ResolvedFresh(n: Node, cwd: seq<string>, path: string)
      requires Lookup(n, cwd).Some? && Resolve(cwd, path).Some? && Lookup(n, Resolve(cwd, path).value).None?
      ensures var t := Resolve(cwd, path).value; |t| >= 1 && IsName(t[|t| - 1])
    {
      var names := Resolve(cwd, path).value;
      // a path without components names the root or the working directory, which exist
      assert Components(path) == [] ==> names == if IsAbs(path) then [] else cwd;
      ResolveNames(cwd, path);
    }

    /** Creating the directory keeps the filesystem valid and makes one step of `mkdir_recursive`. */
    static lemma Created(n: Node, cwd: seq<string>, path: string)
      requires n.Dir? && WellFormed(n) && Lookup(n, cwd).Some? && Lookup(n, cwd).value.Dir?
      requires Resolve(cwd, path).Some? && Lookup(n, Resolve(cwd, path).value).None?
      requires var t := Resolve(cwd, path).value;
        |t| >= 1 && IsName(t[|t| - 1]) && Lookup(n, t[..|t| - 1]).Some? && Lookup(n, t[..|t| - 1]).value.Dir?
      ensures var m := WithDir(n, Resolve(cwd, path).value);
        m.Dir? && WellFormed(m) && Lookup(m, cwd).Some? && Lookup(m, cwd).value.Dir? &&
        MkdirStep(n, m, cwd, path, true)
    {
      var names := Resolve(cwd, path).value;
      WithDirGrows(n, names);
      WithDirWellFormed(n, names);
      Grown(n, WithDir(n, names), cwd);
    }

    /** A grown tree still has the working directory. */
    static lemma Grown(before: Node, after: Node, cwd: seq<string>)
      requires Grows(before, after) && Lookup(before, cwd).Some? && Lookup(before, cwd).value.Dir?
      ensures Lookup(after, cwd).Some? && Lookup(after, cwd).value.Dir?
    {
    }

    /**
     * `mkdir_recursive(path)`, with the recursion skipped when `dirname(path)`
     * is "" (the working directory); what it achieves is `MkdirDone`.
     */
    method MkdirRecursive(path: string) returns (r: Result<(), OsError>)
      requires Valid()
      modifies this
      ensures Valid() && cwd == old(cwd)
      ensures MkdirDone(old(root), root, cwd, path, r.Ok?)
      decreases |path|
    {
      var sub := Dirname(path);
      ghost var start := root;
      DirnameShorter(cwd, path);
      if Exists(root, cwd, path) {
        AlreadyThere(root, cwd, path);
      }
      if sub != "" && !Exists(root, cwd, sub) {
        r := MkdirRecursive(sub);
        if r.Err? {
          RecursionFailed(start, root, cwd, path);
          return;
        }
      }
      ghost var mid := root;
      if Exists(root, cwd, path) {
        r := Ok(());
      } else {
        r := Mkdir(path);
      }
      Finished(start, mid, root, cwd, path, r.Ok?);
    }
  }

  /**
   * What `mkdir_recursive(path)` achieves, from the tree `before` to the tree
   * `after`, succeeding or not as `ok` says: nothing that existed is removed or
   * changes kind; a path that existed is left alone; a path naming the names `t`
   * succeeds exactly when nothing on the way to `t` is a non-directory and the
   * path does not name a non-directory with a trailing '/', and then `t` and
   * every directory on the way to it exist, `t` a directory if it is new;
   * nothing is created off the way to `t`.
   */
  ghost predicate MkdirDone(before: Node, after: Node, cwd: seq<string>, path: string, ok: bool) {
    Grows(before, after) &&
    (Exists(before, cwd, path) ==> ok && after == before) &&
    (Resolve(cwd, path).None? ==> !ok) &&
    (Resolve(cwd, path).Some? ==> var t := Resolve(cwd, path).value;
      CreatedAlong(before, after, t) &&
      (ok <==> NoFileOnTheWay(before, t) && !SlashedFile(before, cwd, path)) &&
      (ok ==> Lookup(after, t).Some? && DirsOnTheWay(after, t)) &&
      (ok && Lookup(before, t).None? ==> Lookup(after, t).value.Dir?))
  }

  /** The recursion in `mkdir_recursive` is on a shorter path, and a dirname made of slashes exists. */
  lemma DirnameShorter(cwd: seq<string>, path: string)
    ensures Dirname(path) != "" && AllSlashes(Dirname(path)) ==> Resolve(cwd, Dirname(path)) == Some([])
    ensures Dirname(path) != "" && !AllSlashes(Dirname(path)) ==> |Dirname(path)| < |path|
  {
    DirnameComponents(path);
    if Dirname(path) != "" && AllSlashes(Dirname(path)) { RootDirname(cwd, path); }
  }

  /** When `path` exists, so does its dirname, and there is nothing to do. */
  lemma AlreadyThere(n: Node, cwd: seq<string>, path: string)
    requires n.Dir? && Exists(n, cwd, path)
    ensures Dirname(path) != "" ==> Exists(n, cwd, Dirname(path))
    ensures MkdirDone(n, n, cwd, path, true)
  {
    var t := Resolve(cwd, path).value;
    OnTheWay(n, t);
    DirnameUnslashed(n, cwd, path);
    if Dirname(path) != "" {
      DirnameResolves(cwd, path);
      var t1 := Resolve(cwd, Dirname(path)).value;
      if t1 != t { LookupPrefix(n, t, t1); }
    }
  }

  /** A failing recursion fails the call. */
  lemma RecursionFailed(start: Node, mid: Node, cwd: seq<string>, path: string)
    requires start.Dir? && Dirname(path) != "" && !Exists(start, cwd, Dirname(path))
    requires MkdirDone(start, mid, cwd, Dirname(path), false)
    ensures MkdirDone(start, mid, cwd, path, false)
  {
    var sub := Dirname(path);
    DirnameUnslashed(start, cwd, path);
    if Exists(start, cwd, path) { AlreadyThere(start, cwd, path); }
    if Resolve(cwd, path).Some? {
      DirnameResolves(cwd, path);
      var t := Resolve(cwd, path).value;
      var t1 := Resolve(cwd, sub).value;
      CreatedAlongWider(start, mid, t1, t);
      NoFilePrefix(start, t1, t);
    }
  }

  /** The final `os.mkdir`, or nothing when the path already exists, completes the call. */
  lemma Finished(start: Node, mid: Node, final: Node, cwd: seq<string>, path: string, ok: bool)
    requires start.Dir? && Lookup(start, cwd).Some? && Lookup(start, cwd).value.Dir?
    requires Exists(start, cwd, path) ==> mid == start
    requires Dirname(path) != "" && !Exists(start, cwd, Dirname(path)) ==>
      MkdirDone(start, mid, cwd, Dirname(path), true)
    requires !(Dirname(path) != "" && !Exists(start, cwd, Dirname(path))) ==> mid == start
    requires Exists(mid, cwd, path) ==> ok && final == mid
    requires !Exists(mid, cwd, path) ==> MkdirStep(mid, final, cwd, path, ok)
    ensures MkdirDone(start, final, cwd, path, ok)
  {
    var sub := Dirname(path);
    if Exists(start, cwd, path) { AlreadyThere(start, cwd, path); }
    if Dirname(path) != "" && !Exists(start, cwd, Dirname(path)) {
      assert Grows(start, mid);
    } else {
      assert Grows(start, mid);
    }
    assert Grows(mid, final);
    GrowsTrans(start, mid, final);
    if Resolve(cwd, path).Some? {
      var t := Resolve(cwd, path).value;
      if sub != "" {
        DirnameResolves(cwd, path);
        var t1 := Resolve(cwd, sub).value;
        if !Exists(start, cwd, sub) {
          CreatedAlongTrans(start, mid, final, t1, t, t);
        }
        if ok {
          OnTheWay(final, t);
          GrowsNoFile(start, final, t);
          if Lookup(start, t).None? && Lookup(mid, t).Some? {
            // only the recursion can have made `path`, which is then `dirname(path)`
            assert t <= t1 && t1 <= t;
            assert t == t1;
          }
          assert !SlashedFile(final, cwd, path);
          GrowsUnslashed(start, final, cwd, path);
        } else if Lookup(mid, t).Some? {
          // `path` names a non-directory with a trailing '/', which the recursion cannot have made
          assert Lookup(start, t).None? ==> t <= t1 && t == t1;
          GrowsSlashed(start, mid, cwd, path);
        } else {
          assert Tail(path) == "" ==> t == t1;
          MkdirFailure(start, mid, cwd, path, sub);
        }
      } else {
        DirnameEmptyResolves(cwd, path);
        assert t[..|t| - 1] == cwd;
        if ok {
          OnTheWay(final, t);
          GrowsNoFile(start, final, t);
          GrowsUnslashed(start, final, cwd, path);
        }
      }
    }
  }

  /**
   * What `os.mkdir(path)` does to a tree (see `FileSystem.Mkdir`): it succeeds
   * exactly when nothing is at the path and its parent is a directory, and then
   * adds an empty directory there and nothing else; otherwise nothing changes.
   */
  ghost predicate MkdirStep(before: Node, after: Node, cwd: seq<string>, path: string, ok: bool) {
    Grows(before, after) &&
    (Resolve(cwd, path).None? ==> !ok) &&
    (!ok ==> after == before) &&
    (Resolve(cwd, path).Some? ==> var t := Resolve(cwd, path).value;
      (ok <==> Lookup(before, t).None? && |t| >= 1 &&
               Lookup(before, t[..|t| - 1]).Some? && Lookup(before, t[..|t| - 1]).value.Dir?) &&
      (ok ==> Lookup(after, t) == Some(Dir(t[|t| - 1], [])) && CreatedAlong(before, after, t)))
  }

  /** Nothing on the way to the names `t` is a non-directory. */
  predicate NoFileOnTheWay(n: Node, t: seq<string>) {
    forall k :: 0 <= k < |t| ==> Lookup(n, t[..k]).None? || Lookup(n, t[..k]).value.Dir?
  }

  /** Everything on the way to the names `t` is a directory. */
  ghost predicate DirsOnTheWay(n: Node, t: seq<string>) {
    forall k :: 0 <= k < |t| ==> Lookup(n, t[..k]).Some? && Lookup(n, t[..k]).value.Dir?
  }

  lemma OnTheWay(n: Node, t: seq<string>)
    requires Lookup(n, t).Some?
    ensures DirsOnTheWay(n, t) && NoFileOnTheWay(n, t)
  {
    forall k | 0 <= k < |t| ensures Lookup(n, t[..k]).Some? && Lookup(n, t[..k]).value.Dir? {
      assert t[..k] < t;
      LookupPrefix(n, t, t[..k]);
    }
  }

  /** A dirname names no non-directory through a trailing '/': it ends with '/' only as the root. */
  lemma DirnameUnslashed(n: Node, cwd: seq<string>, path: string)
    requires n.Dir?
    ensures !SlashedFile(n, cwd, Dirname(path))
    ensures Exists(n, cwd, Dirname(path)) <==>
      Resolve(cwd, Dirname(path)).Some? && Lookup(n, Resolve(cwd, Dirname(path)).value).Some?
  {
    DirnameNoTrailingSlash(path);
    if EndsWithSlash(Dirname(path)) { RootDirname(cwd, path); }
  }

  lemma GrowsUnslashed(a: Node, b: Node, cwd: seq<string>, p: string)
    requires Grows(a, b) && !SlashedFile(b, cwd, p)
    ensures !SlashedFile(a, cwd, p)
  {
  }

  lemma GrowsSlashed(a: Node, b: Node, cwd: seq<string>, p: string)
    requires Grows(a, b) && SlashedFile(b, cwd, p) && Lookup(a, Resolve(cwd, p).value).Some?
    ensures SlashedFile(a, cwd, p)
  {
  }

  lemma GrowsTrans(a: Node, b: Node, c: Node)
    requires Grows(a, b) && Grows(b, c)
    ensures Grows(a, c)
  {
  }

  lemma GrowsNoFile(a: Node, b: Node, t: seq<string>)
    requires Grows(a, b) && DirsOnTheWay(b, t)
    ensures NoFileOnTheWay(a, t)
  {
  }

  lemma CreatedAlongWider(a: Node, b: Node, t1: seq<string>, t: seq<string>)
    requires CreatedAlong(a, b, t1) && t1 <= t
    ensures CreatedAlong(a, b, t)
  {
  }

  lemma CreatedAlongTrans(a: Node, b: Node, c: Node, t1: seq<string>, t2: seq<string>, t: seq<string>)
    requires CreatedAlong(a, b, t1) && CreatedAlong(b, c, t2) && t1 <= t && t2 <= t
    ensures CreatedAlong(a, c, t)
  {
  }

  lemma NoFilePrefix(n: Node, t1: seq<string>, t: seq<string>)
    requires t1 <= t
    ensures NoFileOnTheWay(n, t) ==> NoFileOnTheWay(n, t1)
  {
    if NoFileOnTheWay(n, t) {
      forall k | 0 <= k < |t1| ensures Lookup(n, t1[..k]).None? || Lookup(n, t1[..k]).value.Dir? {
        assert t1[..k] == t[..k];
      }
    }
  }

  /** A non-empty `dirname(path)` resolves to what `path` resolves to, without its last name. */
  lemma DirnameResolves(cwd: seq<string>, path: string)
    requires Resolve(cwd, path).Some? && Dirname(path) != ""
    ensures Resolve(cwd, Dirname(path)).Some?
    ensures Resolve(cwd, path).value == Resolve(cwd, Dirname(path)).value + (if Tail(path) == "" then [] else [Tail(path)])
  {
    var sub := Dirname(path);
    DirnameComponents(path);
    var cs := Components(path);
    var cs1 := Components(sub);
    var extra := if Tail(path) == "" then [] else [Tail(path)];
    assert cs == cs1 + extra;
    NoDotsPrefix(cs1, extra);
    assert IsAbs(sub) == IsAbs(path) by { assert sub[0] == path[0]; }
    if IsAbs(path) {
      assert Resolve(cwd, sub) == Some(cs1);
      assert Resolve(cwd, path) == Some(cs);
    } else {
      assert Resolve(cwd, sub) == Some(cwd + cs1);
      assert Resolve(cwd, path) == Some(cwd + cs);
      assert cwd + (cs1 + extra) == (cwd + cs1) + extra;
    }
  }

  /** A sequence of names without "." or ".." has none in a prefix either. */
  lemma NoDotsPrefix(a: seq<string>, b: seq<string>)
    requires !exists i :: 0 <= i < |a + b| && ((a + b)[i] == "." || (a + b)[i] == "..")
    ensures !exists i :: 0 <= i < |a| && (a[i] == "." || a[i] == "..")
  {
    forall i | 0 <= i < |a| ensures !(a[i] == "." || a[i] == "..") {
      assert (a + b)[i] == a[i];
    }
  }

  /** A dirname made of slashes is the root. */
  lemma RootDirname(cwd: seq<string>, path: string)
    requires Dirname(path) != "" && AllSlashes(Dirname(path))
    ensures Resolve(cwd, Dirname(path)) == Some([])
  {
    DirnameComponents(path);
    assert Dirname(path)[0] == '/';
  }

  /** A path whose dirname is empty is a single name under the working directory. */
  lemma DirnameEmptyResolves(cwd: seq<string>, path: string)
    requires Resolve(cwd, path).Some? && Dirname(path) == ""
    ensures Resolve(cwd, path).value == cwd + [path] && Tail(path) == path && !EndsWithSlash(path)
  {
    DirnameComponents(path);
    DirnameCases(path);
    assert Components(path) == [path];
    assert path[0] != '/';
  }

  /**
   * When the final `os.mkdir` fails although `dirname(path)` exists, the parent
   * was a non-directory before the call.
   */
  lemma MkdirFailure(start: Node, mid: Node, cwd: seq<string>, path: string, sub: string)
    requires sub == Dirname(path) && sub != "" && Tail(path) != ""
    requires Resolve(cwd, path).Some? && Resolve(cwd, sub).Some? && Grows(start, mid)
    requires Lookup(mid, Resolve(cwd, sub).value).Some?
    requires Lookup(start, Resolve(cwd, sub).value).None? ==> Lookup(mid, Resolve(cwd, sub).value).value.Dir?
    requires var t := Resolve(cwd, path).value;
      |t| >= 1 && !(Lookup(mid, t[..|t| - 1]).Some? && Lookup(mid, t[..|t| - 1]).value.Dir?)
    ensures !NoFileOnTheWay(start, Resolve(cwd, path).value)
  {
    DirnameResolves(cwd, path);
    var t := Resolve(cwd, path).value;
    var t1 := Resolve(cwd, sub).value;
    assert t == t1 + [Tail(path)];
    assert t[..|t| - 1] == t1;
    var k := |t1|;
    assert Lookup(start, t[..k]).Some? && !Lookup(start, t[..k]).value.Dir?;
  }
}
