/**
 * `set_azure_env` (pipeline/util.py): the environment variables GDAL reads to
 * reach Azure blob storage, derived from the GDAL version and a SAS URL. The
 * URL arrives already parsed, as its network location and its query.
 */
module AzureEnv {
  import opened Wrappers
  import opened Strings

  datatype Version = Version(major: int, minor: int, patch: int)

  datatype EnvError =
    | MalformedVersion(version: string)   // the ValueError of `map(int, ...)` unpacked into three names
    | UnsupportedGdal(major: int)         // the Exception raised for GDAL before 3

  const AccountVar := "AZURE_STORAGE_ACCOUNT"
  const StorageTokenVar := "AZURE_STORAGE_SAS_TOKEN"
  const SasVar := "AZURE_SAS"

  /**
   * `major, minor, _ = map(int, version.split('.'))`: exactly three
   * '.'-separated parts, each an integer.
   */
  function ParseVersion(version: string): (r: Option<Version>)
    ensures r.Some? <==>
      |Split(version, '.')| == 3 && forall i :: 0 <= i < 3 ==> ParseInt(Split(version, '.')[i]).Some?
    ensures r.Some? ==>
      version == Split(version, '.')[0] + "." + Split(version, '.')[1] + "." + Split(version, '.')[2] &&
      ParseInt(Split(version, '.')[0]) == Some(r.value.major) &&
      ParseInt(Split(version, '.')[1]) == Some(r.value.minor) &&
      ParseInt(Split(version, '.')[2]) == Some(r.value.patch)
  {
    var parts := Split(version, '.');
    if |parts| != 3 then None
    else
      match (ParseInt(parts[0]), ParseInt(parts[1]), ParseInt(parts[2]))
      case (Some(major), Some(minor), Some(patch)) =>
        JoinSplit(version, '.');
        JoinThree(parts, '.');
        Some(Version(major, minor, patch))
      case _ => None
  }

  lemma JoinThree(parts: seq<string>, c: char)
    requires |parts| == 3
    ensures Join(parts, c) == parts[0] + [c] + parts[1] + [c] + parts[2]
  {
    assert parts[1..][1..] == [parts[2]];
    assert Join(parts[1..], c) == parts[1] + [c] + parts[2];
  }

  /** The version as GDAL reports it, "major.minor.patch". */
  function VersionString(v: Version): string {
    DecimalString(v.major) + "." + DecimalString(v.minor) + "." + DecimalString(v.patch)
  }

  lemma DecimalStringNoDot(i: int)
    ensures '.' !in DecimalString(i)
  {
    var s := NatString(if i < 0 then -i else i);
    assert forall j :: 0 <= j < |s| ==> s[j] != '.';
  }

  /** Every version GDAL can report parses back to itself. */
  lemma ParseVersionString(v: Version)
    ensures ParseVersion(VersionString(v)) == Some(v)
  {
    var x, y, z := DecimalString(v.major), DecimalString(v.minor), DecimalString(v.patch);
    DecimalStringNoDot(v.major);
    DecimalStringNoDot(v.minor);
    DecimalStringNoDot(v.patch);
    var parts := [x, y, z];
    JoinThree(parts, '.');
    SplitJoin(parts, '.');
    ParseDecimalString(v.major);
    ParseDecimalString(v.minor);
    ParseDecimalString(v.patch);
  }

  /** `netloc.split('.')[0]`: the text before the first '.', or all of it when there is none. */
  function Account(netloc: string): (a: string)
    ensures a <= netloc && '.' !in a
    ensures |a| == |netloc| || netloc[|a|] == '.'
  {
    SplitHead(netloc, '.');
    Split(netloc, '.')[0]
  }

  /** The variable the SAS token goes to: it depends on the minor version only. */
  function TokenVariable(minor: int): Option<string> {
    if minor >= 5 then Some(StorageTokenVar)
    else if minor >= 2 then Some(SasVar)
    else None
  }

  /**
   * The environment after a successful call: the account variable holds the
   * account, the token variable of the minor version (if any) holds the
   * query, and every other variable is as before.
   */
  function Configured(env: map<string, string>, minor: int, netloc: string, query: string): (e: map<string, string>)
    ensures e.Keys == env.Keys + {AccountVar} + (if minor >= 5 then {StorageTokenVar} else if minor >= 2 then {SasVar} else {})
    ensures e[AccountVar] == Account(netloc)
    ensures minor >= 5 ==> e[StorageTokenVar] == query
    ensures 2 <= minor < 5 ==> e[SasVar] == query
    ensures forall k :: k in env && k != AccountVar && Some(k) != TokenVariable(minor) ==> e[k] == env[k]
  {
    var e := env[AccountVar := Account(netloc)];
    match TokenVariable(minor)
    case Some(t) => e[t := query]
    case None => e
  }

  /** The process environment, `os.environ`. */
  class Environment {
    var vars: map<string, string>

    constructor (vars0: map<string, string>)
      ensures vars == vars0
    {
      vars := vars0;
    }

    /**
     * `set_azure_env(sas_url, gdal_lib)` with the URL's netloc and query given:
     * a malformed version or a GDAL before 3 fails with nothing written;
     * otherwise the account and, by the minor version, the token are written.
     */
    method SetAzureEnv(gdalVersion: string, netloc: string, query: string) returns (r: Result<(), EnvError>)
      modifies this
      ensures ParseVersion(gdalVersion).None? ==> r == Err(MalformedVersion(gdalVersion)) && vars == old(vars)
      ensures ParseVersion(gdalVersion).Some? && ParseVersion(gdalVersion).value.major < 3 ==>
        r == Err(UnsupportedGdal(ParseVersion(gdalVersion).value.major)) && vars == old(vars)
      ensures ParseVersion(gdalVersion).Some? && ParseVersion(gdalVersion).value.major >= 3 ==>
        r == Ok(()) && vars == Configured(old(vars), ParseVersion(gdalVersion).value.minor, netloc, query)
    {
      var parsed := ParseVersion(gdalVersion);
      if parsed.None? {
        return Err(MalformedVersion(gdalVersion));
      }
      var major, minor := parsed.value.major, parsed.value.minor;
      if major < 3 {
        return Err(UnsupportedGdal(major));
      }
      var account := Account(netloc);
      vars := vars[AccountVar := account];
      if minor >= 5 {
        vars := vars[StorageTokenVar := query];
      } else if minor >= 2 {
        vars := vars[SasVar := query];
      }
      r := Ok(());
    }
  }
}
