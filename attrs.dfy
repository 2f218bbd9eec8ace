/**
 * `get_cf_global_attrs` (pipeline/util.py): the CF global attributes of a
 * dataset, where the caller's keyword arguments are kept and six provenance
 * attributes receive a default. Attribute values are strings here.
 */
module CfAttrs {

  /** What the defaults are read from: the clock, the command line, the host and the package. */
  datatype Host = Host(ctime: string, argv0: string, hostname: string, username: string, version: string)

  const Organisation := "CarbonPlan"

  /** The key the institution default is guarded by in the source; it lacks a 't'. */
  const Misspelled := "insitution"

  /** The keys whose presence guards their own default. */
  const SelfGuarded: set<string> := {"history", "source", "hostname", "username", "version"}

  /** The default each attribute receives. */
  function Default(host: Host, key: string): string {
    match key
    case "history" => "Created: " + host.ctime
    case "institution" => Organisation
    case "source" => host.argv0
    case "hostname" => host.hostname
    case "username" => host.username
    case _ => host.version
  }

  /** One `if guard not in attrs: attrs[key] = default` step. */
  function SetUnless(attrs: map<string, string>, guard: string, key: string, value: string): map<string, string> {
    if guard in attrs then attrs else attrs[key := value]
  }

  /** The six steps in source order, the institution default guarded by `guard`. */
  function FillDefaults(attrs: map<string, string>, host: Host, guard: string): map<string, string> {
    var a := SetUnless(attrs, "history", "history", "Created: " + host.ctime);
    var a := SetUnless(a, guard, "institution", Organisation);
    var a := SetUnless(a, "source", "source", host.argv0);
    var a := SetUnless(a, "hostname", "hostname", host.hostname);
    var a := SetUnless(a, "username", "username", host.username);
    SetUnless(a, "version", "version", host.version)
  }

  /** What one step leaves at key `k`. */
  lemma SetUnlessAt(attrs: map<string, string>, guard: string, key: string, value: string, k: string)
    ensures k in SetUnless(attrs, guard, key, value) <==> k in attrs || (k == key && guard !in attrs)
    ensures k == key && guard !in attrs ==> SetUnless(attrs, guard, key, value)[k] == value
    ensures k in attrs && (k != key || guard in attrs) ==> SetUnless(attrs, guard, key, value)[k] == attrs[k]
  {
  }

  /** What the six steps leave at one key. */
  lemma FillDefaultsAt(attrs: map<string, string>, host: Host, guard: string, k: string)
    requires guard !in SelfGuarded
    ensures k in FillDefaults(attrs, host, guard) <==>
      k in attrs || k in SelfGuarded || (k == "institution" && guard !in attrs)
    ensures k in SelfGuarded ==>
      FillDefaults(attrs, host, guard)[k] == (if k in attrs then attrs[k] else Default(host, k))
    ensures k == "institution" && guard !in attrs ==> FillDefaults(attrs, host, guard)[k] == Organisation
    ensures k in attrs && k !in SelfGuarded && (k != "institution" || guard in attrs) ==>
      FillDefaults(attrs, host, guard)[k] == attrs[k]
  {
    var a1 := SetUnless(attrs, "history", "history", "Created: " + host.ctime);
    var a2 := SetUnless(a1, guard, "institution", Organisation);
    var a3 := SetUnless(a2, "source", "source", host.argv0);
    var a4 := SetUnless(a3, "hostname", "hostname", host.hostname);
    var a5 := SetUnless(a4, "username", "username", host.username);
    SetUnlessAt(attrs, "history", "history", "Created: " + host.ctime, k);
    SetUnlessAt(a1, guard, "institution", Organisation, k);
    SetUnlessAt(a2, "source", "source", host.argv0, k);
    SetUnlessAt(a3, "hostname", "hostname", host.hostname, k);
    SetUnlessAt(a4, "username", "username", host.username, k);
    SetUnlessAt(a5, "version", "version", host.version, k);
    assert guard in a1 <==> guard in attrs;
  }

  /**
   * Whatever key guards the institution default (one outside the self-guarded
   * keys): the self-guarded keys keep a caller's value and get their default
   * only when absent; "institution" is set exactly when the guard is absent;
   * every other caller key is returned unchanged, and no other key is added.
   */
  lemma FillDefaultsSpec(attrs: map<string, string>, host: Host, guard: string)
    requires guard !in SelfGuarded
    ensures forall k :: k in SelfGuarded ==>
      k in FillDefaults(attrs, host, guard) &&
      FillDefaults(attrs, host, guard)[k] == (if k in attrs then attrs[k] else Default(host, k))
    ensures guard !in attrs ==> FillDefaults(attrs, host, guard)["institution"] == Organisation
    ensures forall k :: k in attrs && k !in SelfGuarded && (k != "institution" || guard in attrs) ==>
      FillDefaults(attrs, host, guard)[k] == attrs[k]
    ensures FillDefaults(attrs, host, guard).Keys ==
      attrs.Keys + SelfGuarded + (if guard in attrs then {} else {"institution"})
  {
    forall k {
      FillDefaultsAt(attrs, host, guard, k);
    }
  }

  /** `if guard not in attrs: attrs[key] = value`, on the dictionary being filled. */
  method SetDefault(attrs: map<string, string>, guard: string, key: string, value: string) returns (r: map<string, string>)
    ensures r == SetUnless(attrs, guard, key, value)
  {
    r := attrs;
    if guard !in r {
      r := r[key := value];
    }
  }

  /**
   * `get_cf_global_attrs(**attrs)`: the keyword arguments arrive in a fresh
   * dictionary, which is filled key by key and returned.
   */
  method GetCfGlobalAttrs(attrs: map<string, string>, host: Host) returns (r: map<string, string>)
    ensures r == FillDefaults(attrs, host, Misspelled)
    ensures forall k :: k in SelfGuarded ==> k in r && r[k] == (if k in attrs then attrs[k] else Default(host, k))
    ensures Misspelled !in attrs ==> r["institution"] == Organisation
    ensures forall k :: k in attrs && k !in SelfGuarded && (k != "institution" || Misspelled in attrs) ==> r[k] == attrs[k]
    ensures r.Keys == attrs.Keys + SelfGuarded + (if Misspelled in attrs then {} else {"institution"})
  {
    r := SetDefault(attrs, "history", "history", "Created: " + host.ctime);
    r := SetDefault(r, Misspelled, "institution", Organisation);
    r := SetDefault(r, "source", "source", host.argv0);
    r := SetDefault(r, "hostname", "hostname", host.hostname);
    r := SetDefault(r, "username", "username", host.username);
    r := SetDefault(r, "version", "version", host.version);
    FillDefaultsSpec(attrs, host, Misspelled);
  }

  /**
   * As written, a caller's "institution" is replaced by the default unless the
   * caller also passes the misspelled key.
   */
  lemma InstitutionOverwritten(attrs: map<string, string>, host: Host)
    requires "institution" in attrs && Misspelled !in attrs
    ensures "institution" in FillDefaults(attrs, host, Misspelled)
    ensures FillDefaults(attrs, host, Misspelled)["institution"] == Organisation
  {
    FillDefaultsSpec(attrs, host, Misspelled);
  }

  /** The concrete case: `get_cf_global_attrs(institution="UNDP")` reports CarbonPlan. */
  lemma InstitutionOverwrittenExample(host: Host)
    ensures FillDefaults(map["institution" := "UNDP"], host, Misspelled)["institution"] == "CarbonPlan"
  {
    InstitutionOverwritten(map["institution" := "UNDP"], host);
  }

  /**
   * The evidently intended `get_cf_global_attrs`, guarding the institution
   * default by "institution" itself: each of the six provenance keys keeps a
   * caller's value and receives its default only when absent, every other
   * caller key is unchanged, and nothing else is added.
   */
  function CfGlobalAttrs(attrs: map<string, string>, host: Host): (r: map<string, string>)
    ensures forall k :: k in SelfGuarded + {"institution"} ==>
      k in r && r[k] == (if k in attrs then attrs[k] else Default(host, k))
    ensures forall k :: k in attrs ==> k in r && (k in SelfGuarded + {"institution"} || r[k] == attrs[k])
    ensures r.Keys == attrs.Keys + SelfGuarded + {"institution"}
  {
    FillDefaultsSpec(attrs, host, "institution");
    FillDefaults(attrs, host, "institution")
  }
}
