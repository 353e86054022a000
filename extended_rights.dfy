/** `Functions.ResolveRightsGuids`: the display name of an extended right,
    looked up by its `rightsGuid` one level below the forest's
    Extended-Rights container. The directory search (`DirectorySearcher`)
    is a collaborator that answers a lookup with its hits in order, or
    fails with the message of the exception `FindOne` throws (a forest that
    does not exist, a server that cannot be reached). */
module ExtendedRights {
  import opened Common

  datatype Scope = Base | OneLevel | Subtree

  /** The search `ResolveRightsGuids` configures: the ADsPath of its
      `DirectoryEntry`, its filter and its scope. */
  datatype Lookup = Lookup(searchRoot: string, filter: string, scope: Scope)

  /** One search result and its property collection. */
  datatype Hit = Hit(properties: map<string, seq<string>>)

  /** The exceptions the method lets escape: `FindOne` itself failed,
      `FindOne` found nothing (its `null` is dereferenced), or the hit has no
      `cn` value to index. */
  datatype Fault = SearchFailed(message: string) | NullReference | ArgumentOutOfRange

  const LdapScheme: string := "LDAP://"
  const ExtendedRightsPrefix: string := "CN=Extended-Rights,CN=Configuration,"
  const FilterPrefix: string := "(rightsGuid="
  const FilterSuffix: string := ")"

  function ExtendedRightsDn(forestDn: string): string
  {
    ExtendedRightsPrefix + forestDn
  }

  function RightsFilter(rightsGuid: string): string
  {
    FilterPrefix + rightsGuid + FilterSuffix
  }

  function RightsLookup(forestDn: string, rightsGuid: string): Lookup
  {
    Lookup(LdapScheme + ExtendedRightsDn(forestDn), RightsFilter(rightsGuid), OneLevel)
  }

  /** Reads the forest DN and the GUID back out of a lookup, when it has
      the shape `RightsLookup` builds. */
  function ParseRightsLookup(lookup: Lookup): Option<(string, string)>
  {
    var root := LdapScheme + ExtendedRightsPrefix;
    if lookup.scope == OneLevel && StartsWith(lookup.searchRoot, root)
       && |lookup.filter| >= |FilterPrefix| + |FilterSuffix|
       && StartsWith(lookup.filter, FilterPrefix)
       && lookup.filter[|lookup.filter| - |FilterSuffix|..] == FilterSuffix
    then Some((lookup.searchRoot[|root|..], lookup.filter[|FilterPrefix|..|lookup.filter| - |FilterSuffix|]))
    else None
  }

  /** The lookup names its forest and GUID unambiguously: parsing gives them
      back, so distinct (forest, GUID) pairs are never sent the same search. */
  lemma RightsLookupRoundTrip(forestDn: string, rightsGuid: string)
    ensures ParseRightsLookup(RightsLookup(forestDn, rightsGuid)) == Some((forestDn, rightsGuid))
  {
    var l := RightsLookup(forestDn, rightsGuid);
    var root := LdapScheme + ExtendedRightsPrefix;
    assert l.searchRoot == root + forestDn;
    assert l.searchRoot[..|root|] == root;
    assert l.searchRoot[|root|..] == forestDn;
    var f := l.filter;
    assert f == FilterPrefix + rightsGuid + FilterSuffix;
    assert f[..|FilterPrefix|] == FilterPrefix;
    assert f[|f| - |FilterSuffix|..] == FilterSuffix;
    assert f[|FilterPrefix|..|f| - |FilterSuffix|] == rightsGuid;
  }

  lemma RightsLookupInjective(f1: string, g1: string, f2: string, g2: string)
    requires RightsLookup(f1, g1) == RightsLookup(f2, g2)
    ensures f1 == f2 && g1 == g2
  {
    RightsLookupRoundTrip(f1, g1);
    RightsLookupRoundTrip(f2, g2);
  }

  /** `ResolveRightsGuids`: the first `cn` value of the first hit. A failed
      search escapes; with no hit it throws instead of returning; later hits
      are never looked at. */
  function ResolveRightsGuids(forestDn: string, rightsGuid: string, search: Lookup -> Result<seq<Hit>, string>): (r: Result<string, Fault>)
    ensures var found := search(RightsLookup(forestDn, rightsGuid));
            && (found.Failure? <==> r.Failure? && r.error.SearchFailed?)
            && (found.Failure? ==> r == Failure(SearchFailed(found.error)))
            && (found.Success? ==> (found.value == [] <==> r == Failure(NullReference)))
            && (found.Success? && found.value != [] ==>
                  (r.Success? <==> "cn" in found.value[0].properties && found.value[0].properties["cn"] != []))
            && (r.Success? ==> found.Success? && found.value != [] && "cn" in found.value[0].properties
                               && found.value[0].properties["cn"] != []
                               && r.value == found.value[0].properties["cn"][0])
            && (r == Failure(ArgumentOutOfRange) <==> found.Success? && found.value != [] && !r.Success?)
  {
    match search(RightsLookup(forestDn, rightsGuid))
    case Failure(message) => Failure(SearchFailed(message))
    case Success(hits) =>
      if hits == [] then Failure(NullReference)
      else
        var rightsFinder := hits[0];
        if "cn" in rightsFinder.properties && |rightsFinder.properties["cn"]| > 0
        then Success(rightsFinder.properties["cn"][0])
        else Failure(ArgumentOutOfRange)
  }

  /** Only the first hit decides the outcome: two searches that agree on it
      resolve alike, however many further matches either returns. */
  lemma OnlyFirstHitMatters(forestDn: string, rightsGuid: string,
                            s1: Lookup -> Result<seq<Hit>, string>, s2: Lookup -> Result<seq<Hit>, string>)
    requires var l := RightsLookup(forestDn, rightsGuid);
             && s1(l).Success? && s2(l).Success?
             && s1(l).value != [] && s2(l).value != [] && s1(l).value[0] == s2(l).value[0]
    ensures ResolveRightsGuids(forestDn, rightsGuid, s1) == ResolveRightsGuids(forestDn, rightsGuid, s2)
  {
  }
}
