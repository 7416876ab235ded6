/** Values that pass between the session coordinator, the online-services
    backend it drives and the menu that consumes its outcomes. The backend
    itself is opaque: only what the coordinator reads from it or hands to
    it is modelled here. */
module OnlineTypes {

  datatype Option<+T> = None | Some(value: T)

  /** The platform's online subsystem as the engine's default lookup returns
      it: its name and whether it offers a session interface. */
  datatype OnlineSubsystem = OnlineSubsystem(name: string, hasSessionInterface: bool)

  /** The result codes a join can complete with. */
  datatype JoinResult =
    | Success
    | SessionIsFull
    | SessionDoesNotExist
    | CouldNotRetrieveAddress
    | AlreadyInSession
    | UnknownError

  /** The attribute under which a hosted session advertises its match type. */
  const MatchTypeKey: string := "MatchType"

  /** The name the LAN-only backend reports for itself. */
  const NullSubsystemName: string := "NULL"

  /** The settings a host hands to the backend when it creates a session. */
  datatype SessionSettings = SessionSettings(
    numPublicConnections: int,
    isLANMatch: bool,
    allowJoinInProgress: bool,
    allowJoinViaPresence: bool,
    shouldAdvertise: bool,
    usesPresence: bool,
    attributes: Attributes)

  /** The query part of a session search: LAN or online, a result cap and
      the presence-only filter. */
  datatype SearchQuery = SearchQuery(isLanQuery: bool, maxSearchResults: int, presenceOnly: bool)

  /** The state the backend reports for an asynchronous search. */
  datatype SearchState = NotStarted | InProgress | Done | Failed

  /** One entry of a search: whether the backend considers it valid and the
      attributes its host advertised. */
  datatype SearchResult = SearchResult(valid: bool, attributes: Attributes)

  /** A search the coordinator started, with what the backend filled in. */
  datatype SessionSearch = SessionSearch(query: SearchQuery, state: SearchState, results: seq<SearchResult>)

  /** Advertised session attributes by name. Attribute names are engine
      names, which compare ignoring case; a name is therefore kept as its
      folded form, and names differing only in case are the same key. */
  type Attributes = m: map<string, string> | forall name :: name in m ==> IsFolded(name)
    witness map[]

  /** A string with no upper-case ASCII letter. */
  predicate IsFolded(s: string) {
    forall i :: 0 <= i < |s| ==> !('A' <= s[i] <= 'Z')
  }

  /** The key an attribute name is stored and looked up under. */
  function AttributeKey(name: string): (key: string)
    ensures IsFolded(key)
    ensures EqualsIgnoreCase(key, name)
  {
    LowerStringIsPointwise(name);
    LowerStringIsIdempotent(name);
    LowerString(name)
  }

  /** The key the match-type attribute is stored under. */
  const MatchTypeAttributeKey: string := "matchtype"

  lemma MatchTypeAttributeKeyFolds()
    ensures MatchTypeAttributeKey == LowerString(MatchTypeKey)
  {
  }

  /** The match type a result advertises, found under any casing of its
      attribute name. Reading a missing attribute leaves the destination
      string empty, so a result without one reads as "". */
  function MatchTypeOf(r: SearchResult): string {
    if MatchTypeAttributeKey in r.attributes then r.attributes[MatchTypeAttributeKey] else ""
  }

  /** The match type is the value under the attribute whose name equals
      "MatchType" ignoring case, and "" when there is none. */
  lemma MatchTypeOfAnyCase(r: SearchResult, name: string)
    ensures name in r.attributes && EqualsIgnoreCase(name, MatchTypeKey) ==> MatchTypeOf(r) == r.attributes[name]
    ensures (forall n :: n in r.attributes ==> !EqualsIgnoreCase(n, MatchTypeKey)) ==> MatchTypeOf(r) == ""
  {
    MatchTypeAttributeKeyFolds();
    if name in r.attributes && EqualsIgnoreCase(name, MatchTypeKey) {
      FoldedIsFixed(name);
    }
    if forall n :: n in r.attributes ==> !EqualsIgnoreCase(n, MatchTypeKey) {
      if MatchTypeAttributeKey in r.attributes {
        FoldedIsFixed(MatchTypeAttributeKey);
        assert EqualsIgnoreCase(MatchTypeAttributeKey, MatchTypeKey);
      }
    }
  }

  /** However a host spells the attribute name, a client reads the match
      type stored under it. */
  lemma MatchTypeUnderAnySpelling(r: SearchResult, name: string)
    requires EqualsIgnoreCase(name, MatchTypeKey) && AttributeKey(name) in r.attributes
    ensures MatchTypeOf(r) == r.attributes[AttributeKey(name)]
  {
    MatchTypeOfAnyCase(r, AttributeKey(name));
  }

  /** Folding leaves a folded string as it is. */
  lemma FoldedIsFixed(s: string)
    requires IsFolded(s)
    ensures LowerString(s) == s
  {
    LowerStringIsPointwise(s);
    assert forall i :: 0 <= i < |s| ==> LowerString(s)[i] == s[i];
  }

  lemma LowerStringIsIdempotent(s: string)
    ensures LowerString(LowerString(s)) == LowerString(s)
  {
    var t := LowerString(s);
    LowerStringIsPointwise(s);
    LowerStringIsPointwise(t);
    assert forall i :: 0 <= i < |t| ==> LowerString(t)[i] == t[i];
  }

  /** The engine folds case for comparison over ASCII letters only. */
  function Lower(c: char): char {
    if 'A' <= c <= 'Z' then (c as int + 32) as char else c
  }

  function LowerString(s: string): string {
    if s == [] then [] else [Lower(s[0])] + LowerString(s[1..])
  }

  /** Folding keeps the length and lowers each character on its own. */
  lemma {:induction false} LowerStringIsPointwise(s: string)
    ensures |LowerString(s)| == |s|
    ensures forall i :: 0 <= i < |s| ==> LowerString(s)[i] == Lower(s[i])
  {
    if s != [] {
      LowerStringIsPointwise(s[1..]);
    }
  }

  /** The engine's string equality and its comparison of a name with a
      literal both ignore case. */
  predicate EqualsIgnoreCase(a: string, b: string) {
    LowerString(a) == LowerString(b)
  }

  /** Ignoring case is comparing character by character after folding. */
  lemma EqualsIgnoreCaseIsPointwise(a: string, b: string)
    ensures EqualsIgnoreCase(a, b) <==> |a| == |b| && forall i :: 0 <= i < |a| ==> Lower(a[i]) == Lower(b[i])
  {
    LowerStringIsPointwise(a);
    LowerStringIsPointwise(b);
    if |a| == |b| && forall i :: 0 <= i < |a| ==> Lower(a[i]) == Lower(b[i]) {
      assert forall i :: 0 <= i < |a| ==> LowerString(a)[i] == LowerString(b)[i];
    }
  }

  /** Sessions are LAN-only when there is no online subsystem at all or
      when it is the null (local) subsystem, whatever the case of its name. */
  predicate IsLANMatch(subsystem: Option<OnlineSubsystem>) {
    subsystem.None? || EqualsIgnoreCase(subsystem.value.name, NullSubsystemName)
  }

  /** LAN mode exactly when there is no subsystem or its name folds to
      "null". */
  lemma LanMatchIffNullName(subsystem: Option<OnlineSubsystem>)
    ensures IsLANMatch(subsystem) <==> subsystem.None? || LowerString(subsystem.value.name) == "null"
  {
    assert LowerString(NullSubsystemName) == "null";
  }

  /** The settings a create request carries: the requested capacity, LAN
      mode from the subsystem, joinable in progress and via presence,
      advertised, using presence, and advertising the match type as its only
      attribute. */
  function BuildSettings(numPublicConnections: int, matchType: string, subsystem: Option<OnlineSubsystem>): SessionSettings {
    SessionSettings(
      numPublicConnections := numPublicConnections,
      isLANMatch := IsLANMatch(subsystem),
      allowJoinInProgress := true,
      allowJoinViaPresence := true,
      shouldAdvertise := true,
      usesPresence := true,
      attributes := map[MatchTypeAttributeKey := matchType])
  }

  /** The query a find request carries: LAN exactly when hosting would be,
      the requested cap, and presence sessions only. */
  function BuildQuery(maxSearchResults: int, subsystem: Option<OnlineSubsystem>): SearchQuery {
    SearchQuery(isLanQuery := IsLANMatch(subsystem), maxSearchResults := maxSearchResults, presenceOnly := true)
  }

  /** What a host's settings say: the requested capacity, LAN mode from the
      subsystem, the four flags set, and the match type as the one
      attribute, read back unchanged by a client. */
  lemma SettingsCarryRequest(numPublicConnections: int, matchType: string, subsystem: Option<OnlineSubsystem>)
    ensures var r := BuildSettings(numPublicConnections, matchType, subsystem);
      && r.numPublicConnections == numPublicConnections && r.isLANMatch == IsLANMatch(subsystem)
      && r.allowJoinInProgress && r.allowJoinViaPresence && r.shouldAdvertise && r.usesPresence
      && r.attributes.Keys == {MatchTypeAttributeKey} && MatchTypeOf(SearchResult(true, r.attributes)) == matchType
  {
  }

  /** What a query says: LAN exactly when hosting would be, the requested
      cap, and presence sessions only. */
  lemma QueryCarriesRequest(maxSearchResults: int, subsystem: Option<OnlineSubsystem>)
    ensures var r := BuildQuery(maxSearchResults, subsystem);
      r.isLanQuery == IsLANMatch(subsystem) && r.maxSearchResults == maxSearchResults && r.presenceOnly
  {
  }
}
