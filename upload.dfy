/**
 * `upload_file` and `folder2azureblob` (pipeline/core.py): the blob name an
 * upload gets, the checks on the folder to upload, the blob names of the files
 * below it, and the chunked upload loop with its progress bar and its tally of
 * per-file results. The store itself is a function giving the answer to each
 * upload.
 */
module Uploader {
  import opened Wrappers
  import opened Strings
  import opened Paths
  import opened FileTree
  import opened Chunker
  import opened LocalFs

  /** The store's answer to one `upload_blob` call. */
  datatype Transfer = Stored | Refused(reason: string)

  datatype BlobClient = BlobClient(name: string)

  /** The tuple `upload_file` returns: the new blob's client and the local path. */
  datatype Uploaded = Uploaded(client: BlobClient, src: string)

  /** Why an upload did not happen: the assertion on the blob name, or the store's refusal. */
  datatype UploadError = InvalidBlobName(name: string) | TransferFailed(reason: string)

  /** `not s` for an optional string. */
  predicate Falsy(s: Option<string>) {
    s.None? || s.value == ""
  }

  /**
   * The last segment of `urlparse(src).path`: the path ends at the first '?'
   * or '#', and the parameters after a ';' in its last segment are not part of it.
   */
  function DefaultBlobName(src: string): (name: string)
    ensures '/' !in name && ';' !in name && '?' !in name && '#' !in name
  {
    var path := Before(src, {'?', '#'});
    TailNoSlash(path);
    var last := Before(Tail(path), {';'});
    assert forall i :: 0 <= i < |last| ==> last[i] in Tail(path);
    last
  }

  /** The blob name `upload_file` uses: the one given, or else the file's own name. */
  function BlobNameFor(src: string, dst: Option<string>): string {
    if Falsy(dst) then DefaultBlobName(src) else dst.value
  }

  /** `upload_file(src, dst_blob_name)`, the store answering `transfer`. */
  function UploadFile(src: string, dst: Option<string>, transfer: Transfer): (r: Result<Uploaded, UploadError>)
    ensures r.Ok? <==> BlobNameFor(src, dst) != "" && BlobNameFor(src, dst) != " " && transfer.Stored?
    ensures r.Ok? ==> r.value == Uploaded(BlobClient(BlobNameFor(src, dst)), src)
    ensures BlobNameFor(src, dst) in {"", " "} ==> r == Err(InvalidBlobName(BlobNameFor(src, dst)))
    ensures BlobNameFor(src, dst) !in {"", " "} && transfer.Refused? ==> r == Err(TransferFailed(transfer.reason))
  {
    var name := BlobNameFor(src, dst);
    if name in {"", " "} then Err(InvalidBlobName(name))
    else match transfer
      case Stored => Ok(Uploaded(BlobClient(name), src))
      case Refused(why) => Err(TransferFailed(why))
  }

  /** Without a given name, a plain path is uploaded under the text after its last '/'. */
  lemma DefaultBlobNameOfPath(src: string)
    requires '?' !in src && '#' !in src && ';' !in src
    ensures DefaultBlobName(src) == Tail(src)
    ensures src == Head(src) + DefaultBlobName(src)
  {
    NoQueryNoFragment(src);
    NoParameters(src);
    HeadTail(src);
  }

  lemma NoQueryNoFragment(src: string)
    requires '?' !in src && '#' !in src
    ensures Before(src, {'?', '#'}) == src
  {
    assert forall i :: 0 <= i < |src| ==> src[i] !in {'?', '#'} by {
      forall i | 0 <= i < |src| ensures src[i] !in {'?', '#'} {
        assert src[i] in src;
      }
    }
    BeforeNone(src, {'?', '#'});
  }

  lemma NoParameters(src: string)
    requires ';' !in src
    ensures Before(Tail(src), {';'}) == Tail(src)
  {
    var t := Tail(src);
    assert forall i :: 0 <= i < |t| ==> t[i] !in {';'} by {
      forall i | 0 <= i < |t| ensures t[i] !in {';'} {
        assert t[i] == src[LastSlash(src) + 1 + i] && src[LastSlash(src) + 1 + i] in src;
      }
    }
    BeforeNone(t, {';'});
  }

  /** Without a given name, a path that ends with '/' has no name and is refused before any transfer. */
  lemma UploadOfDirectoryPath(src: string, dst: Option<string>, transfer: Transfer)
    requires Falsy(dst) && '?' !in src && '#' !in src && |src| > 0 && src[|src| - 1] == '/'
    ensures UploadFile(src, dst, transfer) == Err(InvalidBlobName(""))
  {
    assert Before(src, {'?', '#'}) == src;
    assert LastSlash(src) == |src| - 1;
  }

  // ----- the checks on the folder -----

  /** The five assertions `folder2azureblob` starts with, one error each, in their order. */
  datatype FolderError = InvalidFolder | MissingFolder | RelativeFolder | NotAFolder | ShortFolder

  /** The checks on `src_folder`, giving the directory to upload. */
  function CheckFolder(root: Node, cwd: seq<string>, src: Option<string>): (r: Result<Node, FolderError>)
    ensures r.Ok? ==> src.Some? && IsAbs(src.value) && At(root, cwd, src.value) == Some(r.value) && r.value.Dir?
  {
    if src.None? || src.value in {"", "/"} then Err(InvalidFolder)
    else if !Exists(root, cwd, src.value) then Err(MissingFolder)
    else if !IsAbs(src.value) then Err(RelativeFolder)
    else if !IsDir(root, cwd, src.value) then Err(NotAFolder)
    else if |src.value| <= 1 then Err(ShortFolder)
    else Ok(At(root, cwd, src.value).value)
  }

  /**
   * Together the checks accept exactly the absolute paths of directories other
   * than "/", whatever the working directory; the length check never fails.
   */
  lemma CheckFolderAccepts(root: Node, cwd: seq<string>, src: Option<string>)
    ensures CheckFolder(root, cwd, src).Ok? <==>
      src.Some? && IsAbs(src.value) && src.value != "/" && IsDir(root, [], src.value)
    ensures CheckFolder(root, cwd, src) != Err(ShortFolder)
  {
    if src.Some? && IsAbs(src.value) {
      assert Resolve(cwd, src.value) == Resolve([], src.value);
    }
  }

  // ----- blob names -----

  /** The blob prefix: `dst_blob_name` if it is not None, else the last part of `src_folder`. */
  function Prefix(src: string, dst: Option<string>): string {
    if dst.None? then Tail(src) else dst.value
  }

  /** Without a destination the prefix is the folder's own name, and "" when the path ends with '/'. */
  lemma PrefixOfFolder(src: string)
    ensures '/' !in Prefix(src, None) && src == Head(src) + Prefix(src, None)
    ensures |src| > 0 && src[|src| - 1] == '/' ==> Prefix(src, None) == ""
  {
    TailNoSlash(src);
  }

  /** `os.path.relpath` of a path below the folder: the names leading to it, joined with '/'. */
  function RelPath(rel: seq<string>): string {
    Join(rel, '/')
  }

  /** The path of an entry below `src`, as `os.scandir` builds it. */
  function EntryPath(src: string, rel: seq<string>): string {
    PathJoin(src, RelPath(rel))
  }

  /** `os.path.join(prefix, relpath)`. */
  function BlobPath(prefix: string, rel: seq<string>): string {
    PathJoin(prefix, RelPath(rel))
  }

  /** A non-empty sequence of proper names. */
  predicate Proper(rel: seq<string>) {
    rel != [] && forall i :: 0 <= i < |rel| ==> IsName(rel[i])
  }

  /** The relative path of proper names starts with a name and ends with one of its characters. */
  lemma RelPathShape(rel: seq<string>)
    requires Proper(rel)
    ensures RelPath(rel) != "" && !IsAbs(RelPath(rel))
    ensures RelPath(rel)[|RelPath(rel)| - 1] != '/'
    ensures forall i :: 0 <= i < |rel| ==> '/' !in rel[i]
    decreases |rel|
  {
    JoinFirst(rel, '/');
    assert rel[0][0] != '/' by { assert rel[0][0] in rel[0]; }
    if |rel| > 1 {
      RelPathShape(rel[1..]);
      assert forall i :: 1 <= i < |rel| ==> rel[i] == rel[1..][i - 1];
    } else {
      var x := rel[0];
      assert x[|x| - 1] in x;
    }
  }

  /** The path of an entry is what joining the names one by one gives, as `scantree` does. */
  lemma EntryPathStep(src: string, rel: seq<string>, name: string)
    requires Proper(rel) && IsName(name)
    ensures PathJoin(EntryPath(src, rel), name) == EntryPath(src, rel + [name])
  {
    RelPathShape(rel);
    JoinSnoc(rel, name, '/');
    var j := RelPath(rel);
    var x := EntryPath(src, rel);
    PathJoinRelative(src, j);
    assert x == JoinBase(src) + j;
    assert x != "" && x[|x| - 1] == j[|j| - 1];
    assert !IsAbs(name) by { assert name[0] in name; }
    PathJoinRelative(x, name);
    assert JoinBase(x) == x + "/";
    assert !IsAbs(j + "/" + name) by { assert (j + "/" + name)[0] == j[0]; }
    PathJoinRelative(src, j + "/" + name);
    assert RelPath(rel + [name]) == j + "/" + name;
  }

  /** Different files get different blobs: the blob path determines the names leading to the file. */
  lemma BlobPathInjective(prefix: string, r1: seq<string>, r2: seq<string>)
    requires Proper(r1) && Proper(r2)
    ensures BlobPath(prefix, r1) == BlobPath(prefix, r2) <==> r1 == r2
  {
    if BlobPath(prefix, r1) == BlobPath(prefix, r2) {
      RelPathShape(r1);
      RelPathShape(r2);
      PathJoinRelative(prefix, RelPath(r1));
      PathJoinRelative(prefix, RelPath(r2));
      var base := JoinBase(prefix);
      assert (base + RelPath(r1))[|base|..] == RelPath(r1);
      assert (base + RelPath(r2))[|base|..] == RelPath(r2);
      SplitJoin(r1, '/');
      SplitJoin(r2, '/');
    }
  }

  // ----- the uploads of one folder -----

  /** One call of `upload_file` the loop starts: local path, blob name and the overwrite flag. */
  datatype Task = Task(src: string, blob: string, overwrite: bool)

  function TaskFor(src: string, prefix: string, overwrite: bool, e: Entry): Task {
    Task(EntryPath(src, e.rel), BlobPath(prefix, e.rel), overwrite)
  }

  /** The uploads started for the entries `es`, in order: one per regular file, none for anything else. */
  function Tasks(src: string, prefix: string, overwrite: bool, es: seq<Entry>): seq<Task>
    decreases |es|
  {
    if es == [] then []
    else (if es[0].node.File? then [TaskFor(src, prefix, overwrite, es[0])] else []) + Tasks(src, prefix, overwrite, es[1..])
  }

  lemma {:induction false} TasksConcat(src: string, prefix: string, overwrite: bool, a: seq<Entry>, b: seq<Entry>)
    ensures Tasks(src, prefix, overwrite, a + b) == Tasks(src, prefix, overwrite, a) + Tasks(src, prefix, overwrite, b)
    decreases |a|
  {
    if a == [] {
      assert a + b == b;
    } else {
      var h := if a[0].node.File? then [TaskFor(src, prefix, overwrite, a[0])] else [];
      assert (a + b)[0] == a[0] && (a + b)[1..] == a[1..] + b;
      assert Tasks(src, prefix, overwrite, a + b) == h + Tasks(src, prefix, overwrite, a[1..] + b);
      TasksConcat(src, prefix, overwrite, a[1..], b);
    }
  }

  /** An upload is started exactly for each regular file among the entries. */
  lemma {:induction false} TasksMembers(src: string, prefix: string, overwrite: bool, es: seq<Entry>)
    ensures forall e :: e in es && e.node.File? ==> TaskFor(src, prefix, overwrite, e) in Tasks(src, prefix, overwrite, es)
    ensures forall t :: t in Tasks(src, prefix, overwrite, es) ==>
      exists e :: e in es && e.node.File? && t == TaskFor(src, prefix, overwrite, e)
    ensures |Tasks(src, prefix, overwrite, es)| <= |es|
    decreases |es|
  {
    if es != [] {
      TasksMembers(src, prefix, overwrite, es[1..]);
      forall e | e in es && e.node.File? ensures TaskFor(src, prefix, overwrite, e) in Tasks(src, prefix, overwrite, es) {
        if e != es[0] { assert e in es[1..]; }
      }
      forall t | t in Tasks(src, prefix, overwrite, es)
        ensures exists e :: e in es && e.node.File? && t == TaskFor(src, prefix, overwrite, e)
      {
        if t !in Tasks(src, prefix, overwrite, es[1..]) {
          assert es[0] in es;
        } else {
          var e :| e in es[1..] && e.node.File? && t == TaskFor(src, prefix, overwrite, e);
          assert e in es;
        }
      }
    }
  }

  /** No two uploads go to the same blob. */
  predicate DistinctBlobs(ts: seq<Task>) {
    forall i, j :: 0 <= i < j < |ts| ==> ts[i].blob != ts[j].blob
  }

  /** The uploads of entries away from the names `r` do not use the blob of `r`. */
  lemma {:induction false} TasksAvoid(src: string, prefix: string, overwrite: bool, es: seq<Entry>, r: seq<string>)
    requires Proper(r) && forall e :: e in es ==> Proper(e.rel) && e.rel != r
    ensures forall t :: t in Tasks(src, prefix, overwrite, es) ==> t.blob != BlobPath(prefix, r)
    decreases |es|
  {
    if es != [] {
      assert es[0] in es;
      assert forall e :: e in es[1..] ==> e in es;
      TasksAvoid(src, prefix, overwrite, es[1..], r);
      BlobPathInjective(prefix, es[0].rel, r);
    }
  }

  lemma DistinctCons(t: Task, ts: seq<Task>)
    requires DistinctBlobs(ts) && forall u :: u in ts ==> u.blob != t.blob
    ensures DistinctBlobs([t] + ts)
  {
    var all := [t] + ts;
    forall i, j | 0 <= i < j < |all| ensures all[i].blob != all[j].blob {
      assert all[j] == ts[j - 1] && ts[j - 1] in ts;
      if i > 0 { assert all[i] == ts[i - 1]; }
    }
  }

  /** Files with different names leading to them get different blob names. */
  lemma {:induction false} TasksDistinct(src: string, prefix: string, overwrite: bool, es: seq<Entry>)
    requires forall e :: e in es ==> Proper(e.rel)
    requires forall i, j :: 0 <= i < j < |es| ==> es[i].rel != es[j].rel
    ensures DistinctBlobs(Tasks(src, prefix, overwrite, es))
    decreases |es|
  {
    if es != [] {
      var tail := es[1..];
      assert forall e :: e in tail ==> e in es;
      assert forall i, j :: 0 <= i < j < |tail| ==> tail[i].rel != tail[j].rel by {
        forall i, j | 0 <= i < j < |tail| ensures tail[i].rel != tail[j].rel {
          assert tail[i] == es[i + 1] && tail[j] == es[j + 1];
        }
      }
      TasksDistinct(src, prefix, overwrite, tail);
      if es[0].node.File? {
        assert es[0] in es;
        assert forall e :: e in tail ==> e.rel != es[0].rel by {
          forall e | e in tail ensures e.rel != es[0].rel {
            var k :| 0 <= k < |tail| && tail[k] == e;
            assert es[k + 1] == e;
          }
        }
        TasksAvoid(src, prefix, overwrite, tail, es[0].rel);
        DistinctCons(TaskFor(src, prefix, overwrite, es[0]), Tasks(src, prefix, overwrite, tail));
      }
    }
  }

  /**
   * The uploads of a whole folder: one for every regular file below it, under
   * the blob name `join(prefix, relpath)`, and no two under the same name.
   */
  lemma FolderTasks(root: Node, cwd: seq<string>, srcFolder: Option<string>, dst: Option<string>, overwrite: bool)
    requires WellFormed(root) && CheckFolder(root, cwd, srcFolder).Ok?
    ensures var dir := CheckFolder(root, cwd, srcFolder).value;
      var src := srcFolder.value;
      var prefix := Prefix(src, dst);
      var ts := Tasks(src, prefix, overwrite, ScanTree(dir));
      (forall q :: q != [] && Lookup(dir, q).Some? && Lookup(dir, q).value.File? ==>
        Task(EntryPath(src, q), BlobPath(prefix, q), overwrite) in ts) &&
      (forall t :: t in ts ==>
        exists q :: q != [] && Lookup(dir, q).Some? && Lookup(dir, q).value.File? &&
          t == Task(EntryPath(src, q), BlobPath(prefix, q), overwrite)) &&
      DistinctBlobs(ts)
  {
    var dir := CheckFolder(root, cwd, srcFolder).value;
    var src := srcFolder.value;
    LookupNames(root, Resolve(cwd, src).value);
    DirTasksComplete(dir, src, Prefix(src, dst), overwrite);
    DirTasksSound(dir, src, Prefix(src, dst), overwrite);
    DirTasksDistinct(dir, src, Prefix(src, dst), overwrite);
  }

  lemma DirTasksComplete(dir: Node, src: string, prefix: string, overwrite: bool)
    requires dir.Dir? && WellFormed(dir)
    ensures forall q :: q != [] && Lookup(dir, q).Some? && Lookup(dir, q).value.File? ==>
      Task(EntryPath(src, q), BlobPath(prefix, q), overwrite) in Tasks(src, prefix, overwrite, ScanTree(dir))
  {
    var es := ScanTree(dir);
    ScanTreeExact(dir);
    TasksMembers(src, prefix, overwrite, es);
    forall q | q != [] && Lookup(dir, q).Some? && Lookup(dir, q).value.File?
      ensures Task(EntryPath(src, q), BlobPath(prefix, q), overwrite) in Tasks(src, prefix, overwrite, es)
    {
      assert Entry(q, Lookup(dir, q).value) in es;
      assert TaskFor(src, prefix, overwrite, Entry(q, Lookup(dir, q).value)) == Task(EntryPath(src, q), BlobPath(prefix, q), overwrite);
    }
  }

  lemma DirTasksSound(dir: Node, src: string, prefix: string, overwrite: bool)
    requires dir.Dir? && WellFormed(dir)
    ensures forall t :: t in Tasks(src, prefix, overwrite, ScanTree(dir)) ==>
      exists q :: q != [] && Lookup(dir, q).Some? && Lookup(dir, q).value.File? &&
        t == Task(EntryPath(src, q), BlobPath(prefix, q), overwrite)
  {
    var es := ScanTree(dir);
    ScanTreeExact(dir);
    TasksMembers(src, prefix, overwrite, es);
    forall t | t in Tasks(src, prefix, overwrite, es)
      ensures exists q ::
        q != [] && Lookup(dir, q).Some? && Lookup(dir, q).value.File? &&
        t == Task(EntryPath(src, q), BlobPath(prefix, q), overwrite)
    {
      var e :| e in es && e.node.File? && t == TaskFor(src, prefix, overwrite, e);
      assert Lookup(dir, e.rel).Some? && Lookup(dir, e.rel).value.File?;
    }
  }

  lemma DirTasksDistinct(dir: Node, src: string, prefix: string, overwrite: bool)
    requires dir.Dir? && WellFormed(dir)
    ensures DistinctBlobs(Tasks(src, prefix, overwrite, ScanTree(dir)))
  {
    var es := ScanTree(dir);
    ScanTreeExact(dir);
    forall e | e in es ensures Proper(e.rel) {
      LookupNames(dir, e.rel);
    }
    TasksDistinct(src, prefix, overwrite, es);
  }

  /** How many of the uploads `ts` come back as a tuple, the store answering `transport`. */
  function Succeeded(ts: seq<Task>, transport: Task -> Transfer): (n: nat)
    ensures n <= |ts|
    decreases |ts|
  {
    if ts == [] then 0
    else (if UploadFile(ts[0].src, Some(ts[0].blob), transport(ts[0])).Ok? then 1 else 0) + Succeeded(ts[1..], transport)
  }

  lemma SucceededOne(t: Task, transport: Task -> Transfer)
    ensures Succeeded([t], transport) == if UploadFile(t.src, Some(t.blob), transport(t)).Ok? then 1 else 0
  {
    assert [t][1..] == [];
  }

  lemma {:induction false} SucceededConcat(a: seq<Task>, b: seq<Task>, transport: Task -> Transfer)
    ensures Succeeded(a + b, transport) == Succeeded(a, transport) + Succeeded(b, transport)
    decreases |a|
  {
    if a == [] {
      assert a + b == b;
    } else {
      assert (a + b)[1..] == a[1..] + b;
      SucceededConcat(a[1..], b, transport);
    }
  }

  /**
   * Every upload succeeds exactly when the store takes each one and no blob
   * name is a single space (which the name check in `upload_file` refuses).
   */
  lemma {:induction false} SucceededAll(ts: seq<Task>, transport: Task -> Transfer)
    requires forall t :: t in ts ==> t.blob != ""
    ensures Succeeded(ts, transport) == |ts| <==> forall t :: t in ts ==> transport(t).Stored? && t.blob != " "
    decreases |ts|
  {
    if ts != [] {
      SucceededAll(ts[1..], transport);
      assert ts[0] in ts;
      assert forall t :: t in ts[1..] ==> t in ts;
      assert forall t :: t in ts ==> t == ts[0] || t in ts[1..];
    }
  }

  /** The number of chunks the loop gets through before a failure at chunk `abortAt`, if any. */
  function Started(chunks: nat, abortAt: Option<nat>): (k: nat)
    ensures k <= chunks
    ensures k < chunks <==> abortAt.Some? && abortAt.value < chunks
  {
    if abortAt.Some? && abortAt.value < chunks then abortAt.value else chunks
  }

  /** An abort before the end stops at the chunk it happened at. */
  lemma StartedAt(chunks: nat, abortAt: Option<nat>)
    requires abortAt.Some? && abortAt.value < chunks
    ensures Started(chunks, abortAt) == abortAt.value
  {
  }

  /** Without an abort before the end, every chunk is started. */
  lemma StartedAll(chunks: nat, abortAt: Option<nat>)
    requires abortAt.Some? ==> chunks <= abortAt.value
    ensures Started(chunks, abortAt) == chunks
  {
  }

  /**
   * The progress total `nfiles // 100 + 1` is at least the number of chunks,
   * and one more than it exactly when `nfiles` is a multiple of 100.
   */
  lemma ProgressTotal<T>(es: seq<T>)
    ensures |Chunks(es, 100)| <= |es| / 100 + 1
    ensures |Chunks(es, 100)| == |es| / 100 + 1 <==> |es| % 100 != 0
  {
    ChunksCount(es, 100);
    var m := |es|;
    var q := m / 100;
    assert m == 100 * q + m % 100;
    if m % 100 == 0 {
      DivideBy(m + 99, 100, q);
    } else {
      DivideBy(m + 99, 100, q + 1);
    }
  }

  /** The uploads started for the first `k` chunks, chunk after chunk. */
  function ChunkTasks(src: string, prefix: string, overwrite: bool, chunks: seq<seq<Entry>>, k: nat): seq<Task>
    requires k <= |chunks|
    decreases k
  {
    if k == 0 then [] else ChunkTasks(src, prefix, overwrite, chunks, k - 1) + Tasks(src, prefix, overwrite, chunks[k - 1])
  }

  /** Chunk after chunk, the uploads are those of the entries of the chunks, in order. */
  lemma {:induction false} ChunkTasksFlatten(src: string, prefix: string, overwrite: bool, chunks: seq<seq<Entry>>, k: nat)
    requires k <= |chunks|
    ensures ChunkTasks(src, prefix, overwrite, chunks, k) == Tasks(src, prefix, overwrite, Flatten(chunks[..k]))
    decreases k
  {
    if k == 0 {
      assert chunks[..0] == [];
    } else {
      ChunkTasksFlatten(src, prefix, overwrite, chunks, k - 1);
      var i := k - 1;
      assert chunks[..i + 1] == chunks[..i] + [chunks[i]];
      FlattenConcat(chunks[..i], [chunks[i]]);
      assert Flatten([chunks[i]]) == chunks[i] + Flatten([]);
      assert Flatten([chunks[i]]) == chunks[i];
      TasksConcat(src, prefix, overwrite, Flatten(chunks[..i]), chunks[i]);
    }
  }

  /** The uploads of the first `k` chunks of 100 are those of their entries, and of all entries when `k` is the last. */
  lemma ChunksReached(src: string, prefix: string, overwrite: bool, es: seq<Entry>, k: nat)
    requires k <= |Chunks(es, 100)|
    ensures ChunkTasks(src, prefix, overwrite, Chunks(es, 100), k) == Tasks(src, prefix, overwrite, Flatten(Chunks(es, 100)[..k]))
    ensures k == |Chunks(es, 100)| ==> ChunkTasks(src, prefix, overwrite, Chunks(es, 100), k) == Tasks(src, prefix, overwrite, es)
  {
    var chunks := Chunks(es, 100);
    ChunkTasksFlatten(src, prefix, overwrite, chunks, k);
    ChunksFlatten(es, 100);
    assert chunks[..|chunks|] == chunks;
  }

  /** The inner loop of `folder2azureblob`: an upload for each regular file of the chunk. */
  method StartChunk(src: string, prefix: string, overwrite: bool, chunk: seq<Entry>) returns (ftrs: seq<Task>)
    ensures ftrs == Tasks(src, prefix, overwrite, chunk)
  {
    ftrs := [];
    var j := 0;
    while j < |chunk|
      invariant 0 <= j <= |chunk|
      invariant ftrs == Tasks(src, prefix, overwrite, chunk[..j])
    {
      var e := chunk[j];
      assert chunk[..j + 1] == chunk[..j] + [e];
      TasksConcat(src, prefix, overwrite, chunk[..j], [e]);
      j := j + 1;
      if !e.node.File? {
        continue;
      }
      ftrs := ftrs + [TaskFor(src, prefix, overwrite, e)];
    }
    assert chunk[..j] == chunk;
  }

  /** One more result counts one more success exactly when it is a tuple. */
  lemma SucceededStep(ts: seq<Task>, m: nat, transport: Task -> Transfer)
    requires m < |ts|
    ensures Succeeded(ts[..m + 1], transport) ==
      Succeeded(ts[..m], transport) + if UploadFile(ts[m].src, Some(ts[m].blob), transport(ts[m])).Ok? then 1 else 0
  {
    assert ts[..m + 1] == ts[..m] + [ts[m]];
    SucceededConcat(ts[..m], [ts[m]], transport);
    SucceededOne(ts[m], transport);
  }

  /** The results of a chunk's uploads: a tuple is a success, anything else a failure. */
  method Classify(ftrs: seq<Task>, transport: Task -> Transfer) returns (ok: nat, bad: nat)
    ensures ok == Succeeded(ftrs, transport) && ok + bad == |ftrs|
  {
    ok, bad := 0, 0;
    var m := 0;
    while m < |ftrs|
      invariant 0 <= m <= |ftrs|
      invariant ok == Succeeded(ftrs[..m], transport) && ok + bad == m
    {
      var t := ftrs[m];
      var res := UploadFile(t.src, Some(t.blob), transport(t));
      SucceededStep(ftrs, m, transport);
      if res.Ok? {
        ok := ok + 1;
      } else {
        bad := bad + 1;
      }
      m := m + 1;
    }
    assert ftrs[..m] == ftrs;
  }

  /** The bookkeeping of `folder2azureblob` as one value. */
  datatype Tally = Tally(total: nat, progress: nat, chunksDone: nat, launched: seq<Task>, succeeded: nat, failed: nat)

  /**
   * The bookkeeping after the first `k` chunks: `nchunks` on the bar, the bar
   * and the counter at `k`, the uploads of those chunks, and how many of them
   * succeeded and failed.
   */
  function AfterChunks(src: string, prefix: string, overwrite: bool, chunks: seq<seq<Entry>>, nchunks: nat,
                       transport: Task -> Transfer, k: nat): Tally
    requires k <= |chunks|
  {
    var ts := ChunkTasks(src, prefix, overwrite, chunks, k);
    Tally(nchunks, k, k, ts, Succeeded(ts, transport), |ts| - Succeeded(ts, transport))
  }

  /** One more chunk: its uploads are added, their successes and failures counted, and the bar and the counter advance. */
  lemma AfterChunksStep(src: string, prefix: string, overwrite: bool, chunks: seq<seq<Entry>>, nchunks: nat,
                        transport: Task -> Transfer, k: nat)
    requires k < |chunks|
    ensures var before := AfterChunks(src, prefix, overwrite, chunks, nchunks, transport, k);
      var ts := Tasks(src, prefix, overwrite, chunks[k]);
      AfterChunks(src, prefix, overwrite, chunks, nchunks, transport, k + 1) ==
        Tally(nchunks, k + 1, k + 1, before.launched + ts, before.succeeded + Succeeded(ts, transport),
              before.failed + (|ts| - Succeeded(ts, transport)))
  {
    var launched := ChunkTasks(src, prefix, overwrite, chunks, k);
    SucceededConcat(launched, Tasks(src, prefix, overwrite, chunks[k]), transport);
  }

  /**
   * Why `folder2azureblob` raised: a failed check; `asyncio.wait` of an empty
   * list (a ValueError), at a chunk that started no upload; or an error raised
   * as chunk `chunk` starts.
   */
  datatype BatchError = Rejected(why: FolderError) | EmptyWait(chunk: nat) | Aborted(chunk: nat)

  /**
   * How many of the first `bound` chunks the loop completes. As written
   * (`guardEmpty` false) it stops at the first chunk that starts no upload,
   * since `asyncio.wait([])` raises ValueError before the bar advances. The
   * corrected loop (`guardEmpty` true) awaits only a chunk that started
   * uploads, and completes all `bound` chunks.
   */
  function Completed(src: string, prefix: string, overwrite: bool, chunks: seq<seq<Entry>>, bound: nat,
                     guardEmpty: bool): (k: nat)
    requires bound <= |chunks|
    ensures k <= bound
    ensures forall j :: 0 <= j < k ==> guardEmpty || Tasks(src, prefix, overwrite, chunks[j]) != []
    ensures k < bound ==> !guardEmpty && Tasks(src, prefix, overwrite, chunks[k]) == []
    decreases bound
  {
    if bound == 0 then 0
    else
      var k := Completed(src, prefix, overwrite, chunks, bound - 1, guardEmpty);
      if k < bound - 1 || (!guardEmpty && Tasks(src, prefix, overwrite, chunks[bound - 1]) == []) then k
      else bound
  }

  /**
   * A loop that completed its first `k` chunks and stops at `k`, at the end or
   * at a chunk without uploads, completes exactly `k` of the first `bound`.
   */
  lemma CompletedAt(src: string, prefix: string, overwrite: bool, chunks: seq<seq<Entry>>, bound: nat,
                    guardEmpty: bool, k: nat)
    requires bound <= |chunks| && k <= bound && Completed(src, prefix, overwrite, chunks, k, guardEmpty) == k
    requires k < bound ==> !guardEmpty && Tasks(src, prefix, overwrite, chunks[k]) == []
    ensures Completed(src, prefix, overwrite, chunks, bound, guardEmpty) == k
  {
  }

  /** A loop that completed its first `k` chunks completes one more when chunk `k` is not skipped as empty. */
  lemma CompletedNext(src: string, prefix: string, overwrite: bool, chunks: seq<seq<Entry>>, guardEmpty: bool, k: nat)
    requires k < |chunks| && Completed(src, prefix, overwrite, chunks, k, guardEmpty) == k
    requires guardEmpty || Tasks(src, prefix, overwrite, chunks[k]) != []
    ensures Completed(src, prefix, overwrite, chunks, k + 1, guardEmpty) == k + 1
  {
  }

  /** The corrected loop completes every chunk it starts. */
  lemma GuardedLoopCompletes(src: string, prefix: string, overwrite: bool, chunks: seq<seq<Entry>>, bound: nat)
    requires bound <= |chunks|
    ensures Completed(src, prefix, overwrite, chunks, bound, true) == bound
  {
  }

  /**
   * As written, a folder holding nothing but one entry that is not a regular
   * file (a FIFO, a socket) starts no upload in its only
   * chunk, so the loop completes no chunk and raises, although nothing failed.
   */
  lemma EmptyChunkRaises(overwrite: bool)
    ensures var es := ScanTree(Dir("d", [Special("p")]));
      es == [Entry(["p"], Special("p"))] && Chunks(es, 100) == [es] &&
      Tasks("/d", "d", overwrite, es) == [] &&
      Completed("/d", "d", overwrite, Chunks(es, 100), 1, false) == 0
  {
    var d := Dir("d", [Special("p")]);
    assert [Special("p")][1..] == [];
    assert SortByName([Special("p")]) == Insert(Special("p"), []) == [Special("p")];
    assert ScanSorted([], [Special("p")], d) == Visit([], Special("p")) + ScanSorted([], [], d);
    assert [] + ["p"] == ["p"];
    var es := ScanTree(d);
    assert es == [Entry(["p"], Special("p"))];
    assert Chunks(es, 100) == [es];
    assert es[1..] == [];
  }

  /**
   * The bookkeeping of one `folder2azureblob` call: the progress bar's total and
   * position, the chunk counter `n`, the uploads started so far, and how many
   * of their results were a tuple (a success) or anything else (a failure).
   */
  class FolderUpload {
    var total: nat
    var progress: nat
    var chunksDone: nat
    var launched: seq<Task>
    var succeeded: nat
    var failed: nat

    constructor ()
      ensures total == 0 && progress == 0 && chunksDone == 0
      ensures launched == [] && succeeded == 0 && failed == 0
    {
      total, progress, chunksDone := 0, 0, 0;
      launched, succeeded, failed := [], 0, 0;
    }

    /**
     * `folder2azureblob(src_folder, dst_blob_name, overwrite)` on the local
     * filesystem `fs`, the store answering each upload with `transport`; when
     * `abortAt` is `Some(k)`, an error is raised as chunk `k` starts. With
     * `guardEmpty` false this is the code as written; with `guardEmpty` true a
     * chunk that starts no upload is not awaited.
     */
    method Upload(fs: FileSystem, srcFolder: Option<string>, dst: Option<string>, overwrite: bool,
                  transport: Task -> Transfer, abortAt: Option<nat>, guardEmpty: bool) returns (r: Result<(), BatchError>)
      requires fs.Valid()
      modifies this
      ensures CheckFolder(fs.root, fs.cwd, srcFolder).Err? ==>
        r == Err(Rejected(CheckFolder(fs.root, fs.cwd, srcFolder).error)) && unchanged(this)
      ensures CheckFolder(fs.root, fs.cwd, srcFolder).Ok? ==>
        var src := srcFolder.value;
        var es := ScanTree(CheckFolder(fs.root, fs.cwd, srcFolder).value);
        var started := Started(|Chunks(es, 100)|, abortAt);
        var k := Completed(src, Prefix(src, dst), overwrite, Chunks(es, 100), started, guardEmpty);
        total == |es| / 100 + 1 && progress == k && chunksDone == k &&
        launched == Tasks(src, Prefix(src, dst), overwrite, Flatten(Chunks(es, 100)[..k])) &&
        succeeded == Succeeded(launched, transport) && succeeded + failed == |launched| &&
        (r.Ok? <==> k == |Chunks(es, 100)|) &&
        (r.Err? ==> r == Err(if k < started then EmptyWait(k) else Aborted(k))) &&
        (r.Ok? ==> launched == Tasks(src, Prefix(src, dst), overwrite, es)) &&
        (guardEmpty && abortAt.None? ==> r.Ok?)
    {
      var checked := CheckFolder(fs.root, fs.cwd, srcFolder);
      if checked.Err? {
        return Err(Rejected(checked.error));
      }
      r := UploadFolder(srcFolder.value, checked.value, dst, overwrite, transport, abortAt, guardEmpty);
    }

    /** The body of the `try` of `folder2azureblob`, for the accepted folder `src` naming the directory `d`. */
    method UploadFolder(src: string, d: Node, dst: Option<string>, overwrite: bool,
                        transport: Task -> Transfer, abortAt: Option<nat>, guardEmpty: bool) returns (r: Result<(), BatchError>)
      requires d.Dir?
      modifies this
      ensures var es := ScanTree(d);
        var started := Started(|Chunks(es, 100)|, abortAt);
        var k := Completed(src, Prefix(src, dst), overwrite, Chunks(es, 100), started, guardEmpty);
        total == |es| / 100 + 1 && progress == k && chunksDone == k &&
        launched == Tasks(src, Prefix(src, dst), overwrite, Flatten(Chunks(es, 100)[..k])) &&
        succeeded == Succeeded(launched, transport) && succeeded + failed == |launched| &&
        (r.Ok? <==> k == |Chunks(es, 100)|) &&
        (r.Err? ==> r == Err(if k < started then EmptyWait(k) else Aborted(k))) &&
        (r.Ok? ==> launched == Tasks(src, Prefix(src, dst), overwrite, es)) &&
        (guardEmpty && abortAt.None? ==> r.Ok?)
    {
      var prefix := Prefix(src, dst);
      var nfiles := Count(ScanTree(d));
      CountIsLength(ScanTree(d));
      var nchunks := nfiles / 100 + 1;
      var entries := ScanTree(d);
      var chunks := Slicer(entries, 100);
      r := UploadChunks(src, prefix, overwrite, chunks, nchunks, transport, abortAt, guardEmpty);
      ghost var k := Completed(src, prefix, overwrite, chunks, Started(|chunks|, abortAt), guardEmpty);
      if guardEmpty {
        GuardedLoopCompletes(src, prefix, overwrite, chunks, Started(|chunks|, abortAt));
      }
      ChunksReached(src, prefix, overwrite, entries, k);
    }

    /** The six counters and lists, as one value. */
    ghost function State(): Tally
      reads this
    {
      Tally(total, progress, chunksDone, launched, succeeded, failed)
    }

    /**
     * The bookkeeping after the first `k` chunks: the bar and the counter at
     * `k`, the uploads of those chunks started, and their results counted.
     */
    ghost predicate Reached(src: string, prefix: string, overwrite: bool, chunks: seq<seq<Entry>>, nchunks: nat,
                            transport: Task -> Transfer, k: nat)
      reads this
    {
      k <= |chunks| && State() == AfterChunks(src, prefix, overwrite, chunks, nchunks, transport, k)
    }

    /**
     * The progress bar over `nchunks` and the loop over the chunks: start the
     * chunk's uploads, await and count their results, and advance the bar and
     * the chunk counter by one. It raises at the first chunk that starts no
     * upload (unless `guardEmpty`), or at chunk `abortAt`, whichever comes first.
     */
    method UploadChunks(src: string, prefix: string, overwrite: bool, chunks: seq<seq<Entry>>, nchunks: nat,
                        transport: Task -> Transfer, abortAt: Option<nat>, guardEmpty: bool)
      returns (r: Result<(), BatchError>)
      modifies this
      ensures var started := Started(|chunks|, abortAt);
        var k := Completed(src, prefix, overwrite, chunks, started, guardEmpty);
        total == nchunks && progress == k && chunksDone == k &&
        launched == ChunkTasks(src, prefix, overwrite, chunks, k) &&
        succeeded == Succeeded(launched, transport) && succeeded + failed == |launched| &&
        (r.Ok? <==> k == |chunks|) && (r.Err? ==> r == Err(if k < started then EmptyWait(k) else Aborted(k)))
    {
      total, progress, chunksDone := nchunks, 0, 0;
      launched, succeeded, failed := [], 0, 0;
      var k := RunChunks(src, prefix, overwrite, chunks, nchunks, transport, Started(|chunks|, abortAt), guardEmpty);
      r := if k == |chunks| then Ok(())
           else if k < Started(|chunks|, abortAt) then Err(EmptyWait(k))
           else Err(Aborted(k));
    }

    /**
     * The loop over the first `bound` chunks, from a fresh bar: chunk after
     * chunk, until one starts no upload (unless `guardEmpty`). The failure at
     * `abortAt` is an input, so the caller passes the number of chunks started
     * before it as `bound`.
     */
    method RunChunks(src: string, prefix: string, overwrite: bool, chunks: seq<seq<Entry>>, nchunks: nat,
                     transport: Task -> Transfer, bound: nat, guardEmpty: bool) returns (k: nat)
      requires bound <= |chunks| && Reached(src, prefix, overwrite, chunks, nchunks, transport, 0)
      modifies this
      ensures k == Completed(src, prefix, overwrite, chunks, bound, guardEmpty)
      ensures Reached(src, prefix, overwrite, chunks, nchunks, transport, k)
    {
      k := 0;
      var idle := false;
      while k < bound && !idle
        invariant k <= bound && Completed(src, prefix, overwrite, chunks, k, guardEmpty) == k
        invariant idle ==> Completed(src, prefix, overwrite, chunks, bound, guardEmpty) == k
        invariant Reached(src, prefix, overwrite, chunks, nchunks, transport, k)
        decreases bound - k, !idle
      {
        idle := UploadChunk(src, prefix, overwrite, chunks, nchunks, transport, k, guardEmpty);
        if idle {
          CompletedAt(src, prefix, overwrite, chunks, bound, guardEmpty, k);
        } else {
          CompletedNext(src, prefix, overwrite, chunks, guardEmpty, k);
          k := k + 1;
        }
      }
    }

    /**
     * One pass of the loop: chunk `i`'s uploads are started. When none was
     * started and `guardEmpty` is false, `asyncio.wait` raises and nothing
     * advances; otherwise the results are counted and the bar and the counter
     * advance by one.
     */
    method UploadChunk(src: string, prefix: string, overwrite: bool, chunks: seq<seq<Entry>>, nchunks: nat,
                       transport: Task -> Transfer, i: nat, guardEmpty: bool) returns (idle: bool)
      requires i < |chunks| && Reached(src, prefix, overwrite, chunks, nchunks, transport, i)
      modifies this
      ensures idle <==> !guardEmpty && Tasks(src, prefix, overwrite, chunks[i]) == []
      ensures idle ==> Reached(src, prefix, overwrite, chunks, nchunks, transport, i)
      ensures !idle ==> Reached(src, prefix, overwrite, chunks, nchunks, transport, i + 1)
    {
      var ftrs := StartChunk(src, prefix, overwrite, chunks[i]);
      if ftrs == [] && !guardEmpty {
        return true;
      }
      idle := false;
      var ok, bad := Classify(ftrs, transport);
      Record(src, prefix, overwrite, chunks, nchunks, transport, i, ftrs, ok, bad);
    }

    /** The end of a pass: the chunk's uploads and their tallies are added, and `pbar.update(1)` and `n += 1`. */
    method Record(src: string, prefix: string, overwrite: bool, chunks: seq<seq<Entry>>, nchunks: nat,
                  transport: Task -> Transfer, i: nat, ftrs: seq<Task>, ok: nat, bad: nat)
      requires i < |chunks| && Reached(src, prefix, overwrite, chunks, nchunks, transport, i)
      requires ftrs == Tasks(src, prefix, overwrite, chunks[i])
      requires ok == Succeeded(ftrs, transport) && ok + bad == |ftrs|
      modifies this
      ensures Reached(src, prefix, overwrite, chunks, nchunks, transport, i + 1)
    {
      AfterChunksStep(src, prefix, overwrite, chunks, nchunks, transport, i);
      launched := launched + ftrs;
      succeeded, failed := succeeded + ok, failed + bad;
      progress := progress + 1;
      chunksDone := chunksDone + 1;
    }
  }
}
