/**
 * The local filesystem as a tree, and `scantree` (pipeline/core.py): a
 * depth-first walk that visits each directory's entries sorted by name,
 * descends into directories and yields every other entry.
 */
module FileTree {
  import opened Wrappers
  import opened Strings
  import opened Paths

  /**
   * A directory entry: a regular file, an entry that is neither a regular file
   * nor a directory (a socket, a fifo, a device), or a
   * directory with its entries in the order `os.scandir` lists them.
   */
  datatype Node = File(name: string) | Special(name: string) | Dir(name: string, children: seq<Node>)

  /** What `os.scandir` guarantees: entry names are proper names, distinct within a directory. */
  predicate WellFormed(n: Node)
    decreases n
  {
    match n
    case Dir(_, ch) =>
      (forall i, j :: 0 <= i < j < |ch| ==> ch[i].name != ch[j].name) &&
      (forall c :: c in ch ==> IsName(c.name) && WellFormed(c))
    case _ => true
  }

  /** The position of the first entry called `name`. */
  function Find(ch: seq<Node>, name: string): (r: Option<nat>)
    ensures r.Some? ==> r.value < |ch| && ch[r.value].name == name
    ensures r.Some? ==> forall j :: 0 <= j < r.value ==> ch[j].name != name
    ensures r.None? ==> forall j :: 0 <= j < |ch| ==> ch[j].name != name
    decreases |ch|
  {
    if |ch| == 0 then None
    else if ch[0].name == name then Some(0)
    else match Find(ch[1..], name)
      case None => None
      case Some(k) => Some(k + 1)
  }

  /** The node reached from `n` through the names `p`, if there is one. */
  function Lookup(n: Node, p: seq<string>): Option<Node>
    decreases |p|
  {
    if p == [] then Some(n)
    else if !n.Dir? then None
    else match Find(n.children, p[0])
      case None => None
      case Some(i) => Lookup(n.children[i], p[1..])
  }

  /** In a directory with distinct names, looking up an entry's name finds that entry. */
  lemma FindMember(ch: seq<Node>, i: nat)
    requires i < |ch|
    requires forall a, b :: 0 <= a < b < |ch| ==> ch[a].name != ch[b].name
    ensures Find(ch, ch[i].name) == Some(i)
  {
  }

  lemma FindElement(ch: seq<Node>, x: Node)
    requires x in ch
    requires forall a, b :: 0 <= a < b < |ch| ==> ch[a].name != ch[b].name
    ensures Find(ch, x.name).Some? && ch[Find(ch, x.name).value] == x
  {
    var i :| 0 <= i < |ch| && ch[i] == x;
    FindMember(ch, i);
  }

  // ----- sorted(os.scandir(path), key=lambda entry: entry.name) -----

  /** Insert `x` before the first entry whose name is not smaller. */
  function Insert(x: Node, xs: seq<Node>): (r: seq<Node>)
    ensures multiset(r) == multiset(xs) + multiset{x}
    ensures forall y :: y in r ==> y in xs || y == x
    decreases |xs|
  {
    if xs == [] then [x]
    else if !Less(xs[0].name, x.name) then [x] + xs
    else
      assert xs == [xs[0]] + xs[1..];
      [xs[0]] + Insert(x, xs[1..])
  }

  /** `sorted(entries, key=name)`, as an insertion sort. */
  function SortByName(xs: seq<Node>): (r: seq<Node>)
    ensures multiset(r) == multiset(xs)
    ensures forall y :: y in r ==> y in xs
    decreases |xs|
  {
    if xs == [] then []
    else
      assert xs == [xs[0]] + xs[1..];
      Insert(xs[0], SortByName(xs[1..]))
  }

  predicate StrictlySortedByName(xs: seq<Node>) {
    forall i, j :: 0 <= i < j < |xs| ==> Less(xs[i].name, xs[j].name)
  }

  lemma InsertSorted(x: Node, xs: seq<Node>)
    requires StrictlySortedByName(xs)
    requires forall y :: y in xs ==> y.name != x.name
    ensures StrictlySortedByName(Insert(x, xs))
    decreases |xs|
  {
    if xs != [] {
      LessTotal(x.name, xs[0].name);
      if !Less(xs[0].name, x.name) {
        forall j | 0 <= j < |xs| ensures Less(x.name, xs[j].name) {
          if j > 0 { LessTransitive(x.name, xs[0].name, xs[j].name); }
        }
        SortedPrepend(x, xs);
      } else {
        assert forall y :: y in xs[1..] ==> y in xs;
        InsertSorted(x, xs[1..]);
        var r := Insert(x, xs[1..]);
        forall j | 0 <= j < |r| ensures Less(xs[0].name, r[j].name) {
          assert r[j] in r;
          if r[j] != x {
            var k :| 0 <= k < |xs[1..]| && xs[1..][k] == r[j];
            assert xs[k + 1] == r[j];
          }
        }
        SortedPrepend(xs[0], r);
      }
    }
  }

  /** An entry whose name is below all the names of a sorted sequence can go first. */
  lemma SortedPrepend(x: Node, xs: seq<Node>)
    requires StrictlySortedByName(xs)
    requires forall j :: 0 <= j < |xs| ==> Less(x.name, xs[j].name)
    ensures StrictlySortedByName([x] + xs)
  {
    var r := [x] + xs;
    forall i, j | 0 <= i < j < |r| ensures Less(r[i].name, r[j].name) {
      assert r[j] == xs[j - 1];
      if i > 0 { assert r[i] == xs[i - 1]; }
    }
  }

  /** Sorting names that are distinct orders them strictly. */
  lemma {:induction false} SortByNameSorted(xs: seq<Node>)
    requires forall i, j :: 0 <= i < j < |xs| ==> xs[i].name != xs[j].name
    ensures StrictlySortedByName(SortByName(xs))
    decreases |xs|
  {
    if xs != [] {
      var rest := SortByName(xs[1..]);
      SortByNameSorted(xs[1..]);
      forall y | y in rest ensures y.name != xs[0].name {
        assert y in multiset(xs[1..]);
        var k :| 0 <= k < |xs[1..]| && xs[1..][k] == y;
        assert xs[k + 1] == y;
      }
      InsertSorted(xs[0], rest);
    }
  }

  // ----- scantree -----

  /** A yielded `DirEntry`: the names leading to it from the scanned folder, and the entry. */
  datatype Entry = Entry(rel: seq<string>, node: Node)

  /** `scantree` of the directory `d`, which the names `path` lead to from the scanned folder. */
  function ScanDir(path: seq<string>, d: Node): seq<Entry>
    requires d.Dir?
    decreases d, 1
  {
    ScanSorted(path, SortByName(d.children), d)
  }

  /** The loop of `scantree` over the sorted entries `xs` of `d`. */
  function ScanSorted(path: seq<string>, xs: seq<Node>, d: Node): seq<Entry>
    requires d.Dir? && forall x :: x in xs ==> x in d.children
    decreases d, 0, |xs|
  {
    if xs == [] then []
    else
      assert xs[0] in d.children;
      Visit(path, xs[0]) + ScanSorted(path, xs[1..], d)
  }

  /** One entry `n` of the directory at `path`: recurse into a directory, yield anything else. */
  function Visit(path: seq<string>, n: Node): seq<Entry>
    decreases n, 2
  {
    if n.Dir? then ScanDir(path + [n.name], n) else [Entry(path + [n.name], n)]
  }

  /** `scantree(folder)` for the directory `d` the folder names. */
  function ScanTree(d: Node): seq<Entry>
    requires d.Dir?
  {
    ScanDir([], d)
  }

  // ----- what scantree yields -----

  /** `e` lies under the directory `d` at `path`: it is below `path` and is no directory. */
  predicate Under(path: seq<string>, d: Node, e: Entry) {
    |e.rel| > |path| && e.rel[..|path|] == path && !e.node.Dir? && Lookup(d, e.rel[|path|..]) == Some(e.node)
  }

  lemma {:induction false} ScanDirSound(path: seq<string>, d: Node)
    requires d.Dir? && WellFormed(d)
    ensures forall e :: e in ScanDir(path, d) ==> Under(path, d, e)
    decreases d, 1
  {
    SortedMembers(d);
    ScanSortedSound(path, SortByName(d.children), d);
  }

  lemma SortedMembers(d: Node)
    requires d.Dir?
    ensures forall x :: x in SortByName(d.children) ==> x in d.children
  {
    forall x | x in SortByName(d.children) ensures x in d.children {
      assert x in multiset(SortByName(d.children));
    }
  }

  lemma {:induction false} ScanSortedSound(path: seq<string>, xs: seq<Node>, d: Node)
    requires d.Dir? && WellFormed(d) && forall x :: x in xs ==> x in d.children
    ensures forall e :: e in ScanSorted(path, xs, d) ==> Under(path, d, e)
    decreases d, 0, |xs|
  {
    if xs != [] {
      var n := xs[0];
      assert n in d.children;
      assert WellFormed(n);
      VisitSound(path, n);
      ScanSortedSound(path, xs[1..], d);
      FindElement(d.children, n);
      forall e | e in Visit(path, n) ensures Under(path, d, e) {
        VisitUnder(path, d, n, e);
      }
    }
  }

  /** An entry yielded for the child `n` of `d` lies under `d`. */
  lemma VisitUnder(path: seq<string>, d: Node, n: Node, e: Entry)
    requires d.Dir? && Find(d.children, n.name).Some? && d.children[Find(d.children, n.name).value] == n
    requires |e.rel| > |path| && e.rel[..|path| + 1] == path + [n.name] && !e.node.Dir?
    requires Lookup(n, e.rel[|path| + 1..]) == Some(e.node)
    ensures Under(path, d, e)
  {
    var rest := e.rel[|path|..];
    assert e.rel[..|path|] == (path + [n.name])[..|path|] == path;
    assert rest[0] == (path + [n.name])[|path|] == n.name;
    assert rest[1..] == e.rel[|path| + 1..];
  }

  lemma {:induction false} VisitSound(path: seq<string>, n: Node)
    requires WellFormed(n)
    ensures forall e :: e in Visit(path, n) ==>
      |e.rel| > |path| && e.rel[..|path| + 1] == path + [n.name] && !e.node.Dir? &&
      Lookup(n, e.rel[|path| + 1..]) == Some(e.node)
    decreases n, 3
  {
    if n.Dir? {
      VisitSoundDir(path, n);
    } else {
      var e := Entry(path + [n.name], n);
      assert Visit(path, n) == [e];
      assert e.rel[..|path| + 1] == path + [n.name];
      assert e.rel[|path| + 1..] == [];
    }
  }

  lemma {:induction false} VisitSoundDir(path: seq<string>, n: Node)
    requires WellFormed(n) && n.Dir?
    ensures forall e :: e in Visit(path, n) ==>
      |e.rel| > |path| && e.rel[..|path| + 1] == path + [n.name] && !e.node.Dir? &&
      Lookup(n, e.rel[|path| + 1..]) == Some(e.node)
    decreases n, 2
  {
    ScanDirSound(path + [n.name], n);
    assert Visit(path, n) == ScanDir(path + [n.name], n);
    forall e | e in Visit(path, n)
      ensures |e.rel| > |path| && e.rel[..|path| + 1] == path + [n.name] && !e.node.Dir? &&
        Lookup(n, e.rel[|path| + 1..]) == Some(e.node)
    {
      assert Under(path + [n.name], n, e);
    }
  }

  /** The entries of `c` are among those of a loop over entries that include `c`. */
  lemma {:induction false} ScanSortedIncludes(path: seq<string>, xs: seq<Node>, d: Node, c: Node)
    requires d.Dir? && (forall x :: x in xs ==> x in d.children) && c in xs
    ensures forall e :: e in Visit(path, c) ==> e in ScanSorted(path, xs, d)
    decreases |xs|
  {
    if xs[0] != c {
      ScanSortedIncludes(path, xs[1..], d, c);
    }
  }

  /** Every non-directory below `d` is yielded, under the names that lead to it. */
  lemma {:induction false} ScanDirComplete(path: seq<string>, d: Node, q: seq<string>)
    requires d.Dir? && WellFormed(d)
    requires |q| >= 1 && Lookup(d, q).Some? && !Lookup(d, q).value.Dir?
    ensures Entry(path + q, Lookup(d, q).value) in ScanDir(path, d)
    decreases d, 1
  {
    var c := LookupChild(d, q);
    VisitComplete(path, c, q[1..]);
    IncludedVia(path, d, c, q, Lookup(d, q).value);
  }

  /** What is yielded for the child `c` named `q[0]` is yielded for the directory. */
  lemma IncludedVia(path: seq<string>, d: Node, c: Node, q: seq<string>, m: Node)
    requires d.Dir? && c in d.children && |q| >= 1 && c.name == q[0]
    requires Entry(path + [c.name] + q[1..], m) in Visit(path, c)
    ensures Entry(path + q, m) in ScanDir(path, d)
  {
    var xs := SortByName(d.children);
    SortedHas(d, c);
    var e := Entry(path + [c.name] + q[1..], m);
    assert [c.name] + q[1..] == q;
    assert path + [c.name] + q[1..] == path + ([c.name] + q[1..]);
    ScanSortedIncludes(path, xs, d, c);
    assert e in ScanSorted(path, xs, d);
  }

  /** A lookup in a directory goes through the child its first name names. */
  lemma LookupChild(d: Node, q: seq<string>) returns (c: Node)
    requires d.Dir? && WellFormed(d)
    requires |q| >= 1 && Lookup(d, q).Some?
    ensures c in d.children && c.name == q[0] && WellFormed(c)
    ensures Lookup(c, q[1..]) == Lookup(d, q)
  {
    var i := Find(d.children, q[0]).value;
    c := d.children[i];
  }

  lemma SortedHas(d: Node, c: Node)
    requires d.Dir? && c in d.children
    ensures c in SortByName(d.children)
  {
    assert c in multiset(d.children);
  }

  lemma {:induction false} VisitComplete(path: seq<string>, c: Node, r: seq<string>)
    requires WellFormed(c) && Lookup(c, r).Some? && !Lookup(c, r).value.Dir?
    ensures Entry(path + [c.name] + r, Lookup(c, r).value) in Visit(path, c)
    decreases c, 2
  {
    if c.Dir? {
      ScanDirComplete(path + [c.name], c, r);
    } else {
      assert r == [];
      assert path + [c.name] + r == path + [c.name];
    }
  }

  // ----- order -----

  /** Python's `<` on lists of names: component by component, a proper prefix first. */
  predicate PathLess(a: seq<string>, b: seq<string>)
    decreases |a|
  {
    if |a| == 0 then |b| > 0
    else if |b| == 0 then false
    else if a[0] != b[0] then Less(a[0], b[0])
    else PathLess(a[1..], b[1..])
  }

  lemma {:induction false} PathLessIrreflexive(a: seq<string>)
    ensures !PathLess(a, a)
    decreases |a|
  {
    if |a| > 0 { PathLessIrreflexive(a[1..]); }
  }

  /** Two paths that agree up to position `k` and differ there are ordered by that component. */
  lemma {:induction false} PathLessAt(a: seq<string>, b: seq<string>, k: nat)
    requires k < |a| && k < |b| && a[..k] == b[..k] && Less(a[k], b[k])
    ensures PathLess(a, b)
    decreases k
  {
    if k == 0 {
      LessIrreflexive(a[0]);
    } else {
      assert a[0] == a[..k][0] && b[0] == b[..k][0];
      assert a[1..][..k - 1] == a[1..k] == b[1..k] == b[1..][..k - 1];
      PathLessAt(a[1..], b[1..], k - 1);
    }
  }

  predicate Ordered(es: seq<Entry>) {
    forall i, j :: 0 <= i < j < |es| ==> PathLess(es[i].rel, es[j].rel)
  }

  lemma OrderedConcat(a: seq<Entry>, b: seq<Entry>)
    requires Ordered(a) && Ordered(b)
    requires forall i, j :: 0 <= i < |a| && 0 <= j < |b| ==> PathLess(a[i].rel, b[j].rel)
    ensures Ordered(a + b)
  {
    var r := a + b;
    forall i, j | 0 <= i < j < |r| ensures PathLess(r[i].rel, r[j].rel) {
      if j < |a| {
        assert r[i] == a[i] && r[j] == a[j];
      } else if i >= |a| {
        assert r[i] == b[i - |a|] && r[j] == b[j - |a|];
      } else {
        assert r[i] == a[i] && r[j] == b[j - |a|];
      }
    }
  }

  function Names(xs: seq<Node>): seq<string> {
    seq(|xs|, i requires 0 <= i < |xs| => xs[i].name)
  }

  /** What `Visit` yields starts with the entry's own name. */
  lemma {:induction false} VisitPrefix(path: seq<string>, n: Node)
    requires WellFormed(n)
    ensures forall e :: e in Visit(path, n) ==>
      |e.rel| > |path| && e.rel[..|path|] == path && e.rel[|path|] == n.name
  {
    VisitSound(path, n);
    forall e | e in Visit(path, n) ensures e.rel[..|path|] == path && e.rel[|path|] == n.name {
      assert e.rel[..|path| + 1][..|path|] == e.rel[..|path|];
      assert e.rel[..|path| + 1][|path|] == e.rel[|path|];
    }
  }

  /** What the loop over `xs` yields starts with the name of one of `xs`. */
  lemma {:induction false} ScanSortedPrefix(path: seq<string>, xs: seq<Node>, d: Node)
    requires d.Dir? && WellFormed(d) && (forall x :: x in xs ==> x in d.children)
    ensures forall e :: e in ScanSorted(path, xs, d) ==>
      |e.rel| > |path| && e.rel[..|path|] == path && e.rel[|path|] in Names(xs)
    decreases |xs|
  {
    if xs != [] {
      var n := xs[0];
      assert n in d.children;
      assert WellFormed(n);
      VisitPrefix(path, n);
      ScanSortedPrefix(path, xs[1..], d);
      assert Names(xs)[0] == n.name;
      forall e | e in ScanSorted(path, xs[1..], d) ensures e.rel[|path|] in Names(xs) {
        var k :| 0 <= k < |Names(xs[1..])| && Names(xs[1..])[k] == e.rel[|path|];
        assert Names(xs)[k + 1] == xs[k + 1].name == xs[1..][k].name;
      }
    }
  }

  lemma {:induction false} ScanDirOrdered(path: seq<string>, d: Node)
    requires d.Dir? && WellFormed(d)
    ensures Ordered(ScanDir(path, d))
    decreases d, 1
  {
    SortedMembers(d);
    SortByNameSorted(d.children);
    ScanSortedOrdered(path, SortByName(d.children), d);
  }

  lemma {:induction false} ScanSortedOrdered(path: seq<string>, xs: seq<Node>, d: Node)
    requires d.Dir? && WellFormed(d) && (forall x :: x in xs ==> x in d.children)
    requires StrictlySortedByName(xs)
    ensures Ordered(ScanSorted(path, xs, d))
    decreases d, 0, |xs|
  {
    if xs != [] {
      var n := xs[0];
      var a := Visit(path, n);
      var b := ScanSorted(path, xs[1..], d);
      assert n in d.children;
      assert WellFormed(n);
      VisitOrdered(path, n);
      ScanSortedOrdered(path, xs[1..], d);
      VisitPrefix(path, n);
      ScanSortedPrefix(path, xs[1..], d);
      forall i, j | 0 <= i < |a| && 0 <= j < |b| ensures PathLess(a[i].rel, b[j].rel) {
        assert a[i] in a && b[j] in b;
        var k :| 0 <= k < |Names(xs[1..])| && Names(xs[1..])[k] == b[j].rel[|path|];
        assert xs[1..][k] == xs[k + 1];
        assert Less(n.name, b[j].rel[|path|]);
        assert a[i].rel[..|path|] == b[j].rel[..|path|];
        PathLessAt(a[i].rel, b[j].rel, |path|);
      }
      OrderedConcat(a, b);
    }
  }

  lemma {:induction false} VisitOrdered(path: seq<string>, n: Node)
    requires WellFormed(n)
    ensures Ordered(Visit(path, n))
    decreases n, 2
  {
    if n.Dir? {
      ScanDirOrdered(path + [n.name], n);
    }
  }

  // ----- the laws of scantree -----

  /**
   * `scantree` of a directory yields exactly the entries below it that are not
   * directories, each once, under the names leading to it, depth-first in
   * ascending order of names at every level.
   */
  lemma ScanTreeExact(d: Node)
    requires d.Dir? && WellFormed(d)
    ensures forall e :: e in ScanTree(d) ==> !e.node.Dir? && e.rel != [] && Lookup(d, e.rel) == Some(e.node)
    ensures forall q :: q != [] && Lookup(d, q).Some? && !Lookup(d, q).value.Dir? ==>
      Entry(q, Lookup(d, q).value) in ScanTree(d)
    ensures Ordered(ScanTree(d))
    ensures forall i, j :: 0 <= i < j < |ScanTree(d)| ==> ScanTree(d)[i].rel != ScanTree(d)[j].rel
  {
    ScanDirSound([], d);
    forall e | e in ScanTree(d) ensures e.rel != [] && Lookup(d, e.rel) == Some(e.node) {
      assert Under([], d, e);
      assert e.rel[0..] == e.rel;
    }
    forall q | q != [] && Lookup(d, q).Some? && !Lookup(d, q).value.Dir?
      ensures Entry(q, Lookup(d, q).value) in ScanTree(d)
    {
      ScanDirComplete([], d, q);
      assert [] + q == q;
    }
    ScanDirOrdered([], d);
    var es := ScanTree(d);
    forall i, j | 0 <= i < j < |es| ensures es[i].rel != es[j].rel {
      PathLessIrreflexive(es[i].rel);
    }
  }

  /** The names leading to any node of a well-formed tree are proper names. */
  lemma {:induction false} LookupNames(n: Node, q: seq<string>)
    requires WellFormed(n) && Lookup(n, q).Some?
    ensures forall i :: 0 <= i < |q| ==> IsName(q[i])
    ensures WellFormed(Lookup(n, q).value)
    decreases |q|
  {
    if q != [] {
      var i := Find(n.children, q[0]).value;
      assert n.children[i] in n.children;
      LookupNames(n.children[i], q[1..]);
      forall k | 0 <= k < |q| ensures IsName(q[k]) {
        if k > 0 { assert q[k] == q[1..][k - 1]; }
      }
    }
  }
}
