# hrea-zarr upload and environment helpers, modelled in Dafny

This project models the parts of the hrea-zarr pipeline that upload a local folder of
Cloud Optimised GeoTIFF or Zarr output to an Azure blob container:

- `pipeline/core.py`: `scantree`, `mkdir_recursive`, `slicer`, `count`, and the naming rules and
  assertion of `upload_file`;
- `pipeline/core.py`, `folder2azureblob`: the checks on the source folder, the blob prefix, one
  upload per regular file under `join(prefix, relpath)`, the chunks of 100 files, the progress bar
  with its `nfiles // 100 + 1` total, and the classification of results into successes and failures;
- `pipeline/util.py`:
  - the defaults that `get_cf_global_attrs` fills in;
  - the `os.environ` updates of `set_azure_env`;
  - the filter-and-rename loop of `list_az_cogs`.

The modules:

- `Wrappers`: `Option` and `Result`.
- `Strings`: `split`/`join` on one separator, substring `in`, the `sorted` order of `str`, `str(int)` and `int(str)`.
- `Paths`: `os.path.split`, `dirname`, `join`, `isabs` on strings, and the resolution of a path to
  directory names.
- `FileTree`: a directory tree as a datatype, and `scantree` as recursion over the sorted entries of
  each directory.
- `Chunker`: `slicer` (an imperative loop proved against the chunk function) and `count`.
- `LocalFs`: the local filesystem as a class whose `root` tree `os.mkdir` and `mkdir_recursive` update.
- `Uploader`:
  - `upload_file` as a function of the store's answer;
  - the folder checks and blob naming;
  - `folder2azureblob` as the class `FolderUpload`. Its fields are the progress bar (total and
    position), the chunk counter `n`, the uploads started so far, and the success and failure tallies.
- `CfAttrs`: `get_cf_global_attrs` as key-by-key updates of a dictionary.
- `AzureEnv`: the version parsing and the `os.environ` writes of `set_azure_env`; the environment is a class.
- `CogListing`: the `list_az_cogs` loop over a given listing, with the blob URL supplied as a function.

Side effects are replaced by values:

- The Azure store's answer to each upload is a function `transport` from upload to `Stored` or `Refused`.
- The blob listing is a sequence of names.
- The blob client URL is a function of the name.
- The clock, `sys.argv[0]`, the host name, the user name and the package version arrive in a `Host` value.
- The SAS URL arrives parsed into its network location and query.
- An exception raised while the chunks are being uploaded is modelled by the chunk `abortAt` at which it happens.
- The `ValueError` that `asyncio.wait([])` raises for a chunk that started no upload is the error `EmptyWait`.

The blob-name assertion of `upload_file` (pipeline/core.py:81) rejects exactly `None`, `''` and `' '`; a
name such as `'  '` passes.

## Model

| member | source | states |
|---|---|---|
| Chunker.Slicer | pipeline/core.py:39-51 | the `while True` loop yields exactly the chunks of 100 (or `n`) items of the input, in order, and stops at the first empty take |
| Chunker.ChunksFlatten | pipeline/core.py:46-51 | concatenating the chunks in order gives back the input, for every `n > 0` |
| Chunker.ChunksShape | pipeline/core.py:48-51 | every chunk is non-empty with at most `n` items, and every chunk but the last has exactly `n` |
| Chunker.ChunksCount | pipeline/core.py:47-51 | the number of chunks is the input length divided by `n`, rounded up |
| Chunker.CountIsLength | pipeline/core.py:53-57 | summing one per item gives the length, so both branches of `count` agree |
| Strings.JoinSplit | pipeline/util.py:315 | joining the pieces of `str.split` on the separator gives back the string |
| Strings.SplitJoin | pipeline/util.py:315 | splitting a join of separator-free pieces gives back the pieces |
| Strings.ParseDecimalString | pipeline/util.py:315 | `int(str(i)) == i` for every integer |
| Strings.ContainsAt | pipeline/util.py:176-178 | `sub in s` holds exactly when `sub` occurs at some position of `s` |
| Strings.LessTotal | pipeline/core.py:19 | the `str` order that `sorted` uses relates any two different names |
| Strings.LessTransitive | pipeline/core.py:19 | the `str` order is transitive |
| Paths.DirnameComponents | pipeline/core.py:33 | `os.path.dirname` keeps all components of the path but its last, and is shorter unless it is the root or empty |
| FileTree.SortByName | pipeline/core.py:19 | sorting the directory's entries by name permutes them |
| FileTree.SortByNameSorted | pipeline/core.py:19 | entries with distinct names come out in strictly ascending name order |
| FileTree.ScanTreeExact | pipeline/core.py:17-24 | `scantree` yields exactly the non-directories below the folder, each once and under the names leading to it, in depth-first ascending name order; directories are never yielded |
| FileTree.LookupNames | pipeline/core.py:22 | the names leading to any entry of a scanned tree are proper names, and the entry is itself well formed |
| LocalFs.FileSystem.Mkdir | pipeline/core.py:37 | `os.mkdir` creates an empty directory, and nothing else, when nothing is at the path and the parent is a directory. Otherwise nothing changes and it fails with FileExists when an entry is there (also one named with a trailing '/'), with FileNotFound when the parent is missing and no non-directory lies on the way to it, and with NotADirectory otherwise |
| LocalFs.FileSystem.MkdirRecursive | pipeline/core.py:26-37 | corrected `mkdir_recursive`. Nothing existing is removed or changes kind, and an existing path is left alone. It succeeds exactly when no ancestor is a non-directory and the path does not name a non-directory with a trailing '/'; then the path and every ancestor exist, and a new path is a directory. Nothing off the path is created |
| LocalFs.RecursionAsWrittenAbsolute | pipeline/core.py:33-35 | on an absolute path the dirname is never "", so the corrected guard `sub != ""` never fires there and the corrected recursion is the one as written |
| LocalFs.ExistsResolved | pipeline/core.py:34-36 | `os.path.exists` holds exactly when the path resolves to an entry, except a non-directory named with a trailing '/'; whatever `os.path.isdir` accepts exists |
| LocalFs.TrailingSlashMeansDir | pipeline/core.py:110-112 | `os.path.exists(p + "/")` and `os.path.isdir(p + "/")` are both `os.path.isdir(p)` |
| LocalFs.SlashedFileExample | pipeline/core.py:36-37 | with a regular file "f", "f" exists, "f/" does not, and `mkdir_recursive("f/")` cannot succeed |
| LocalFs.BlockedParentExample | pipeline/core.py:37 | with a regular file "f", the parent of "f/a/b" is missing because of a non-directory on the way, which `os.mkdir` reports as ENOTDIR |
| LocalFs.MkdirRelativeDiverges | pipeline/core.py:33-35 | as written, a relative single name recurses to "" and "" recurses to itself without end |
| Uploader.DefaultBlobName | pipeline/core.py:76-79 | the default blob name is free of '/', ';', '?' and '#' |
| Uploader.DefaultBlobNameOfPath | pipeline/core.py:76-79 | for a plain path the default name is the text after its last '/' |
| Uploader.UploadFile | pipeline/core.py:76-89 | succeeds exactly when the resolved blob name is neither '' nor ' ' and the store takes the data; it then returns the pair (blob client, src). A name of '' or ' ' fails the assertion whatever the store would do; otherwise a refusing store gives its error |
| Uploader.UploadOfDirectoryPath | pipeline/core.py:78-81 | without a given name, a path ending in '/' fails the name assertion |
| Uploader.CheckFolder | pipeline/core.py:109-113 | an accepted folder is absolute and names a directory, which is what gets uploaded |
| Uploader.CheckFolderAccepts | pipeline/core.py:109-113 | the five assertions together accept exactly the absolute directory paths other than '/'; the length check never fires on its own |
| Uploader.PrefixOfFolder | pipeline/core.py:119 | without `dst_blob_name` the prefix is the folder's last path part, and empty when the folder ends in '/' |
| Uploader.EntryPathStep | pipeline/core.py:134 | the path `scandir` builds name by name equals `join(src_folder, relpath)` |
| Uploader.BlobPathInjective | pipeline/core.py:134 | `join(prefix, relpath)` is equal for two files exactly when their relative paths are equal |
| Uploader.TasksMembers | pipeline/core.py:131-141 | an upload is started for every regular file among the entries and for nothing else; non-files are skipped |
| Uploader.TasksDistinct | pipeline/core.py:131-141 | entries with distinct relative paths get distinct blob names |
| Uploader.FolderTasks | pipeline/core.py:119-141 | for an accepted folder: one upload per regular file below it, from its path to `join(prefix, relpath)`, every upload from one such file, no two to the same blob |
| Uploader.Succeeded | pipeline/core.py:147-153 | the number of results that are tuples is at most the number of uploads |
| Uploader.SucceededConcat | pipeline/core.py:147-153 | successes of consecutive chunks add up |
| Uploader.SucceededAll | pipeline/core.py:147-153 | every upload succeeds exactly when the store takes each one and no blob name is ' ' |
| Uploader.Started | pipeline/core.py:127-161 | the loop gets through all chunks unless an exception is raised at a chunk before the end |
| Uploader.ProgressTotal | pipeline/core.py:120-125 | the bar total `nfiles // 100 + 1` is never below the number of chunks, and exceeds it by one exactly when `nfiles` is a multiple of 100 |
| Uploader.ChunkTasksFlatten | pipeline/core.py:127-141 | the uploads started chunk by chunk are those of the chunks' entries, in order |
| Uploader.StartChunk | pipeline/core.py:128-141 | the inner loop starts one upload per regular file of the chunk, in order |
| Uploader.Classify | pipeline/core.py:145-153 | tuple results count as successes and all others as failures, and the two add up to the uploads |
| Uploader.Completed | pipeline/core.py:127-158 | the loop completes a prefix of the chunks it starts; as written every completed chunk started an upload, and it stops early only at a chunk that started none |
| Uploader.GuardedLoopCompletes | pipeline/core.py:127-158 | corrected loop: when a chunk without uploads is not awaited, every chunk started is completed |
| Uploader.EmptyChunkRaises | pipeline/core.py:131-145 | as written, a folder holding one entry that is not a regular file yields one chunk that starts no upload, and the loop completes no chunk |
| Uploader.FolderUpload.UploadChunk | pipeline/core.py:128-158 | one pass starts the chunk's uploads; it stops with nothing advanced exactly when none was started (as written); otherwise it adds the chunk's uploads and their tallies and advances the bar and `n` by one |
| Uploader.FolderUpload.Record | pipeline/core.py:147-158 | the end of a pass adds the chunk's uploads and results to the tallies, and moves the bookkeeping to that of one more chunk |
| Uploader.FolderUpload.RunChunks | pipeline/core.py:127-158 | from a fresh bar, the loop completes exactly `Completed` of the chunks started, and the bookkeeping is then that of exactly those chunks |
| Uploader.FolderUpload.UploadChunks | pipeline/core.py:122-161 | the bar total is `nchunks`; the bar and `n` advance by one per chunk completed; the tallies count the results of every upload started. It succeeds exactly when all chunks complete; otherwise it raises `EmptyWait` at the first chunk without uploads, or `Aborted` at chunk `abortAt`, whichever comes first |
| Uploader.FolderUpload.UploadFolder | pipeline/core.py:117-161 | the `try` body for an accepted folder: total `nfiles // 100 + 1`; the bar and `n` count the chunks completed; the uploads are those of the files of those chunks in `scantree` order, all of them on success; the tallies split their results; the error is `EmptyWait` or `Aborted` at the chunk where the loop stopped; the corrected loop without an abort succeeds |
| Uploader.FolderUpload.Upload | pipeline/core.py:95-161 | a failed check raises before any upload and changes nothing. Otherwise the total is `nfiles // 100 + 1`, and the bar and `n` count the chunks completed. The uploads are those of the files of those chunks in `scantree` order: all of them on success. The tallies split their results. As written it raises at the first chunk that starts no upload; the corrected loop without an abort always succeeds |
| CfAttrs.FillDefaultsSpec | pipeline/util.py:30-48 | history, source, hostname, username and version keep a caller's value and get a default only when absent; institution is set exactly when its guard key is absent; other caller keys are unchanged and no other key is added |
| CfAttrs.GetCfGlobalAttrs | pipeline/util.py:28-48 | the function as written: the five self-guarded keys keep caller values; "institution" is "CarbonPlan" unless "insitution" is supplied; every other caller key is unchanged |
| CfAttrs.InstitutionOverwritten | pipeline/util.py:33-34 | a caller's "institution" is replaced by "CarbonPlan" unless "insitution" is also supplied |
| CfAttrs.InstitutionOverwrittenExample | pipeline/util.py:33-34 | `get_cf_global_attrs(institution="UNDP")` reports institution "CarbonPlan" |
| CfAttrs.CfGlobalAttrs | pipeline/util.py:28-48 | corrected: each of the six provenance keys keeps a caller's value and gets its default only when absent; all other caller keys are unchanged |
| AzureEnv.ParseVersion | pipeline/util.py:314-315 | a version is accepted exactly when it has three '.'-separated parts that are each an integer, and then it is those three parts joined by '.' |
| AzureEnv.ParseVersionString | pipeline/util.py:315 | every "major.minor.patch" string parses back to its three numbers |
| AzureEnv.Account | pipeline/util.py:321 | the account is the netloc up to, and not including, its first '.' |
| AzureEnv.Configured | pipeline/util.py:321-327 | the account variable is set. The token goes to AZURE_STORAGE_SAS_TOKEN for minor >= 5, to AZURE_SAS for 2 <= minor < 5, and nowhere below 2. No other variable changes |
| AzureEnv.Environment.SetAzureEnv | pipeline/util.py:306-327 | a malformed version or a major version below 3 raises with `os.environ` unchanged; otherwise `os.environ` becomes `Configured` |
| CogListing.CogsSelected | pipeline/util.py:171-183 | the answer has one entry per passing name, in listing order: position `j` is the renamed `j`-th passing name. A name is kept exactly when it contains each truthy filter |
| CogListing.CogsConcat | pipeline/util.py:171-185 | listing in two parts gives the two answers one after the other |
| CogListing.UnfilteredListing | pipeline/util.py:176-178 | with no truthy country, year or variable name (None, '' or 0) every listed name is reported, in order |
| CogListing.CogeoOverridesGdal | pipeline/util.py:179-182 | when `for_cogeo` is set, `for_gdal` makes no difference: the blob URL replaces the GDAL path |
| CogListing.ListAzCogs | pipeline/util.py:170-185 | the loop with `continue` filters appends exactly the answer `Cogs` describes |

## Left out

- Network I/O to Azure is not modelled: the `ContainerClient` calls `upload_blob`, `list_blobs`, `get_blob_client` and `async with` are replaced by the `transport` answer, the listing and the URL function. The same goes for `max_concurrency`, which only affects how one blob is transferred.
- The asyncio machinery is not modelled: `asyncio.sleep`, `ensure_future`, `wait` with its `timeout`, `gather` and the awaiting of pending uploads. All uploads of a chunk are taken to complete, and the model does not track the order in which their results arrive.
- Logging and the rendering of the tqdm bar are not modelled. The tallies of successes and failures exist only in the model, since the source only logs them.
- Uploader.FolderUpload.Upload: both `scantree` calls read one snapshot of the tree, because the model has no concurrent writers.
- Uploader.FolderUpload.Upload: an exception inside the loop is modelled only as one raised when chunk `abortAt` starts. Exceptions raised while a chunk's results are awaited are not modelled separately. Since `abortAt` is an input, `UploadChunks` passes `RunChunks` the number of chunks started before it, instead of testing for the failure at each chunk.
- Uploader.UploadFile, Uploader.FolderUpload.Upload: the model takes pipeline/core.py as run as a script, where `asyncio` and `logger` are bound by the `__main__` block (pipeline/core.py:190, 192). When the module is imported instead, pipeline/core.py:88 raises NameError after every upload, so every upload counts as a failure; and pipeline/core.py:130 raises NameError before the first chunk, with pipeline/core.py:160 raising again inside the handler. Those outcomes are not modelled.
- FileTree.ScanTreeExact, LocalFs.FileSystem.Mkdir: permission errors are not modelled. An `os.scandir` of an unreadable subdirectory raises PermissionError out of `scantree` (pipeline/core.py:20), which aborts `folder2azureblob`; `os.mkdir` can fail with EACCES (pipeline/core.py:37).
- LocalFs.ExistsResolved, LocalFs.FileSystem.MkdirRecursive, Uploader.CheckFolder: a `Special` entry counts as existing. That is right for FIFOs, sockets and devices, but not for a dangling symbolic link, for which `os.path.exists` is False: on one, `mkdir_recursive` reaches `os.mkdir` and raises FileExistsError (pipeline/core.py:26-37), and `folder2azureblob` fails its "does not exist" assertion (pipeline/core.py:109-113). The model has no dangling links.
- FileTree.ScanTreeExact: symbolic links, and `is_dir(follow_symlinks=False)` against `is_file()`, are not modelled. `Special` nodes stand for the entries that are neither a file nor a directory.
- Paths.Resolve: paths with "." or ".." components are not resolved. For such a path `os.path.exists` and `os.path.isdir` are false in the model, so `Uploader.CheckFolder` rejects a folder such as "/data/./out" with `MissingFolder` where the source accepts it, and `os.mkdir` and `mkdir_recursive` of such a path fail with `Unresolvable`.
- Uploader.DefaultBlobName: the scheme and network location that `urlparse` would strip from a URL-like `src` are not modelled, only its query, fragment and parameters. Neither is the cleaning `urlsplit` does first: it strips leading C0 control characters and spaces, and removes tab, CR and LF anywhere, so for `src="a\tb"` the source's default name is "ab" and the model's is "a\tb".
- Chunker.Slicer: `n` is a natural number. The default `n=None`, which `islice` reads as "no limit" (one chunk holding the whole input, or none for an empty input), is not modelled, and neither is a negative `n`, for which `islice` raises `ValueError`. The laziness of the generator is not modelled either.
- Strings.ParseInt: `int()` here accepts ASCII digits, a sign and the ASCII white space of `str.isspace` (space, tab, LF, VT, FF, CR and \x1c to \x1f) only; underscores and non-ASCII digits or spaces are not modelled.
- CfAttrs.GetCfGlobalAttrs: attribute values are strings.
- AzureEnv.Environment.SetAzureEnv: `urlparse` is not modelled; the network location and the query are inputs.
- Assertions are modelled as errors; running Python with `-O`, which removes them, is not modelled.
- `fetch_hrea_links`, `dataset_from_url`, `zooml2resmeters`, `res2zoom`, `pyramid_coarsen` and `cog2zarr` are not modelled: they do HTTP scraping, GDAL file access, floating point and xarray/zarr writing. Neither is the `__main__` block of `pipeline/core.py`. pipeline/daskc.py is not part of this model.

## Findings

| source | as written | input that shows it | evidently intended | confidence | as-written member | corrected member |
|---|---|---|---|---|---|---|
| pipeline/core.py:33-35 | the recursion runs whenever `dirname(path)` does not exist, and `dirname` of a relative name is "", which never exists; `mkdir_recursive("")` calls itself with "" again | `mkdir_recursive("out")` for a relative `out` (endless recursion, `RecursionError`) | skip the recursion when the dirname is "" (the working directory), and create the path | not executed | LocalFs.MkdirRelativeDiverges | LocalFs.FileSystem.MkdirRecursive |
| pipeline/util.py:33-34 | the institution default is guarded by the misspelled key "insitution" | `get_cf_global_attrs(institution="UNDP")` returns institution "CarbonPlan" | keep a caller's "institution" and default it only when absent | not executed | CfAttrs.InstitutionOverwritten | CfAttrs.CfGlobalAttrs |
| pipeline/core.py:131-145 | a chunk in which no entry is a regular file starts no upload, and `asyncio.wait([])` raises ValueError, which is logged and re-raised (pipeline/core.py:159-161) before the bar advances | the folder "/d" holding only a FIFO or a socket "p" | await only a chunk that started uploads, and go on with the next chunk | not executed | Uploader.EmptyChunkRaises | Uploader.GuardedLoopCompletes |
