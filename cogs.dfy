/**
 * The filter-and-rename loop of `list_az_cogs` (pipeline/util.py): from the
 * blob names of a container, in listing order, keep those that mention every
 * given filter and report each as it is, as a GDAL streaming path, or as its
 * blob URL. The listing and the URL of a blob client are inputs here.
 */
module CogListing {
  import opened Wrappers
  import opened Strings

  /** The keyword arguments that shape the answer. */
  datatype Query = Query(country: Option<string>, year: Option<int>, varName: Option<string>, forGdal: bool, forCogeo: bool)

  /** A `str` argument is truthy unless it is None or empty. */
  predicate Given(f: Option<string>) {
    f.Some? && f.value != ""
  }

  /** An `int` argument is truthy unless it is None or 0. */
  predicate GivenYear(y: Option<int>) {
    y.Some? && y.value != 0
  }

  /** A blob name survives the three `continue` filters: it contains each truthy filter, the year as `str(year)`. */
  predicate Passes(q: Query, name: string) {
    (!Given(q.country) || Contains(name, q.country.value)) &&
    (!GivenYear(q.year) || Contains(name, DecimalString(q.year.value))) &&
    (!Given(q.varName) || Contains(name, q.varName.value))
  }

  /** `/vsiaz_streaming/{container}/{name}`. */
  function GdalPath(container: string, name: string): string {
    "/vsiaz_streaming/" + container + "/" + name
  }

  /** What is appended for a surviving name; the blob URL, taken of the original name, wins. */
  function Renamed(q: Query, container: string, url: string -> string, name: string): string {
    if q.forCogeo then url(name) else if q.forGdal then GdalPath(container, name) else name
  }

  /** The answer for a listing, built in listing order. */
  function Cogs(names: seq<string>, q: Query, container: string, url: string -> string): seq<string>
    decreases |names|
  {
    if names == [] then []
    else
      var last := names[|names| - 1];
      Cogs(names[..|names| - 1], q, container, url) + (if Passes(q, last) then [Renamed(q, container, url, last)] else [])
  }

  /** The positions of the names that survive the filters, in increasing order. */
  function Selected(names: seq<string>, q: Query): seq<nat>
    decreases |names|
  {
    if names == [] then []
    else Selected(names[..|names| - 1], q) + (if Passes(q, names[|names| - 1]) then [|names| - 1] else [])
  }

  /**
   * The answer holds, in listing order, one entry for each name that passes
   * every given filter and none for the others: entry `j` is the renamed
   * `names[Selected[j]]`, the positions increase, and a position is selected
   * exactly when its name passes.
   */
  lemma {:induction false} CogsSelected(names: seq<string>, q: Query, container: string, url: string -> string)
    ensures |Cogs(names, q, container, url)| == |Selected(names, q)|
    ensures forall j :: 0 <= j < |Selected(names, q)| ==>
      Selected(names, q)[j] < |names| &&
      Cogs(names, q, container, url)[j] == Renamed(q, container, url, names[Selected(names, q)[j]])
    ensures forall j, k :: 0 <= j < k < |Selected(names, q)| ==> Selected(names, q)[j] < Selected(names, q)[k]
    ensures forall i :: 0 <= i < |names| ==> (Passes(q, names[i]) <==> i in Selected(names, q))
    decreases |names|
  {
    if names != [] {
      var init := names[..|names| - 1];
      CogsSelected(init, q, container, url);
      assert forall i :: 0 <= i < |init| ==> init[i] == names[i];
    }
  }

  /** Listing in two parts gives the two answers one after the other. */
  lemma {:induction false} CogsConcat(a: seq<string>, b: seq<string>, q: Query, container: string, url: string -> string)
    ensures Cogs(a + b, q, container, url) == Cogs(a, q, container, url) + Cogs(b, q, container, url)
    decreases |b|
  {
    if b == [] {
      assert a + b == a;
    } else {
      var b' := b[..|b| - 1];
      assert (a + b)[..|a + b| - 1] == a + b';
      CogsConcat(a, b', q, container, url);
    }
  }

  /**
   * Falsy filters are ignored: without a truthy country, year or variable
   * name, every listed name is reported, in order.
   */
  lemma {:induction false} UnfilteredListing(names: seq<string>, q: Query, container: string, url: string -> string)
    requires !Given(q.country) && !GivenYear(q.year) && !Given(q.varName)
    ensures |Cogs(names, q, container, url)| == |names|
    ensures forall i :: 0 <= i < |names| ==> Cogs(names, q, container, url)[i] == Renamed(q, container, url, names[i])
    decreases |names|
  {
    if names != [] {
      UnfilteredListing(names[..|names| - 1], q, container, url);
    }
  }

  /** With `for_cogeo` set, `for_gdal` makes no difference. */
  lemma {:induction false} CogeoOverridesGdal(names: seq<string>, q: Query, container: string, url: string -> string)
    requires q.forCogeo
    ensures Cogs(names, q.(forGdal := true), container, url) == Cogs(names, q.(forGdal := false), container, url)
    decreases |names|
  {
    if names != [] {
      var last := names[|names| - 1];
      assert Passes(q.(forGdal := true), last) == Passes(q.(forGdal := false), last);
      CogeoOverridesGdal(names[..|names| - 1], q, container, url);
    }
  }

  /**
   * `list_az_cogs` past the listing call: one pass over the blob names that
   * skips the names failing a filter and appends the rest, renamed.
   */
  method ListAzCogs(names: seq<string>, q: Query, container: string, url: string -> string) returns (blobUrls: seq<string>)
    ensures blobUrls == Cogs(names, q, container, url)
  {
    blobUrls := [];
    for i := 0 to |names|
      invariant blobUrls == Cogs(names[..i], q, container, url)
    {
      assert names[..i + 1][..i] == names[..i];
      var bname := names[i];
      var blobUrl := url(bname);
      if Given(q.country) && !Contains(bname, q.country.value) {
        continue;
      }
      if GivenYear(q.year) && !Contains(bname, DecimalString(q.year.value)) {
        continue;
      }
      if Given(q.varName) && !Contains(bname, q.varName.value) {
        continue;
      }
      if q.forGdal {
        bname := GdalPath(container, bname);
      }
      if q.forCogeo {
        bname := blobUrl;
      }
      blobUrls := blobUrls + [bname];
    }
    assert names[..|names|] == names;
  }
}
