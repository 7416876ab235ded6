/** The menu widget's part in the session lifecycle: the settings it keeps,
    the calls its two buttons make on the coordinator, and the choice of
    which search result to join. */
module MenuWidget {
  import opened OnlineTypes
  import Spec = SessionsSpec
  import Sessions

  /** The defaults the menu's setup declares. */
  const DefaultNumPublicConnections: int := 2
  const DefaultMatchType: string := "FreeForAll"
  const DefaultLobbyPath: string := "/Game/Maps/Lobby"

  /** The option appended to the lobby map so that the host listens. */
  const ListenOption: string := "?listen"

  /** The result cap the join button asks the coordinator to search with. */
  const JoinSearchMaxResults: int := 100000

  /** A result the menu is willing to join: valid, and advertising the
      configured match type up to case (the engine's string equality
      ignores case). */
  predicate Joinable(r: SearchResult, matchType: string) {
    r.valid && EqualsIgnoreCase(MatchTypeOf(r), matchType)
  }

  /** The position one further along, if any. */
  function Shift(choice: Option<nat>): Option<nat> {
    match choice
    case None => None
    case Some(i) => Some(i + 1)
  }

  /** The first joinable result in list order, if any. */
  function FirstJoinable(results: seq<SearchResult>, matchType: string): (choice: Option<nat>)
    ensures choice.Some? ==>
      && choice.value < |results|
      && Joinable(results[choice.value], matchType)
      && forall j :: 0 <= j < choice.value ==> !Joinable(results[j], matchType)
    ensures choice.None? ==> forall j :: 0 <= j < |results| ==> !Joinable(results[j], matchType)
  {
    if results == [] then None
    else if Joinable(results[0], matchType) then Some(0)
    else Shift(FirstJoinable(results[1..], matchType))
  }

  /** An invalid entry is never what decides the choice: replacing it by any
      other invalid entry, whatever match type it advertises, changes
      nothing. */
  lemma InvalidEntriesNeverChosen(results: seq<SearchResult>, i: nat, other: SearchResult, matchType: string)
    requires i < |results| && !results[i].valid && !other.valid
    ensures FirstJoinable(results[i := other], matchType) == FirstJoinable(results, matchType)
  {
    var a := FirstJoinable(results[i := other], matchType);
    var b := FirstJoinable(results, matchType);
    assert forall j :: 0 <= j < |results| ==>
      (Joinable(results[i := other][j], matchType) <==> Joinable(results[j], matchType));
    if a.Some? && b.Some? {
      assert !(a.value < b.value) && !(b.value < a.value);
    }
  }

  /** Searching a concatenation: the first joinable entry of the first part
      if it has one, otherwise that of the second part, shifted. */
  lemma {:induction false} FirstJoinableAppend(front: seq<SearchResult>, back: seq<SearchResult>, matchType: string)
    ensures FirstJoinable(front + back, matchType) ==
      match FirstJoinable(front, matchType)
      case Some(i) => Some(i)
      case None =>
        match FirstJoinable(back, matchType)
        case None => None
        case Some(i) => Some(|front| + i)
    decreases |front|
  {
    var whole := front + back;
    if front == [] {
      assert whole == back;
    } else if Joinable(front[0], matchType) {
      assert whole[0] == front[0];
      assert FirstJoinable(whole, matchType) == Some(0);
    } else {
      assert whole[0] == front[0];
      assert whole[1..] == front[1..] + back;
      FirstJoinableAppend(front[1..], back, matchType);
      assert FirstJoinable(whole, matchType) == Shift(FirstJoinable(front[1..] + back, matchType));
      assert FirstJoinable(front, matchType) == Shift(FirstJoinable(front[1..], matchType));
    }
  }

  /** What a host advertises is what a client with the same configured match
      type looks for: a valid result carrying a host's create settings is
      joinable exactly when the match types agree up to case. */
  lemma AdvertisedMatchTypeIsJoinable(numPublicConnections: int, hostMatchType: string, subsystem: Option<OnlineSubsystem>, matchType: string)
    ensures Joinable(SearchResult(true, BuildSettings(numPublicConnections, hostMatchType, subsystem).attributes), matchType)
            <==> EqualsIgnoreCase(hostMatchType, matchType)
  {
  }

  /** A search returning a Ranked session and then a FreeForAll session,
      with FreeForAll configured, selects the second. */
  lemma SecondResultScenario()
    ensures FirstJoinable([SearchResult(true, map[MatchTypeAttributeKey := "Ranked"]),
                           SearchResult(true, map[MatchTypeAttributeKey := "FreeForAll"])], "FreeForAll") == Some(1)
  {
    var ranked := SearchResult(true, map[MatchTypeAttributeKey := "Ranked"]);
    var freeForAll := SearchResult(true, map[MatchTypeAttributeKey := "FreeForAll"]);
    DifferentLengthsDiffer("Ranked", "FreeForAll");
    FirstJoinableOfPair(ranked, freeForAll, "FreeForAll");
  }

  /** A session advertising "freeforall" is joined by a menu configured
      with "FreeForAll". */
  lemma CaseInsensitiveMatchScenario()
    ensures FirstJoinable([SearchResult(true, map[MatchTypeAttributeKey := "freeforall"])], "FreeForAll") == Some(0)
  {
    var r := SearchResult(true, map[MatchTypeAttributeKey := "freeforall"]);
    LowerCaseFreeForAllMatches();
    FirstJoinableOfSingle(r, "FreeForAll");
  }

  lemma LowerCaseFreeForAllMatches()
    ensures EqualsIgnoreCase("freeforall", "FreeForAll")
  {
    EqualsIgnoreCaseIsPointwise("freeforall", "FreeForAll");
  }

  lemma DifferentLengthsDiffer(a: string, b: string)
    requires |a| != |b|
    ensures !EqualsIgnoreCase(a, b)
  {
    LowerStringIsPointwise(a);
    LowerStringIsPointwise(b);
  }

  lemma FirstJoinableOfSingle(r: SearchResult, matchType: string)
    requires Joinable(r, matchType)
    ensures FirstJoinable([r], matchType) == Some(0)
  {
  }

  lemma FirstJoinableOfPair(first: SearchResult, second: SearchResult, matchType: string)
    requires !Joinable(first, matchType) && Joinable(second, matchType)
    ensures FirstJoinable([first, second], matchType) == Some(1)
  {
    assert [first, second][1..] == [second];
  }

  class Menu {
    var numPublicConnections: int
    var matchType: string
    var lobbyPath: string
    var subsystem: Sessions.MultiplayerSessionsSubsystem?

    /** Before setup the menu holds no coordinator and empty strings; the
        connection count is whatever the engine left there. */
    constructor (initialNumPublicConnections: int)
      ensures subsystem == null && matchType == "" && lobbyPath == ""
      ensures numPublicConnections == initialNumPublicConnections
    {
      numPublicConnections := initialNumPublicConnections;
      matchType := "";
      lobbyPath := "";
      subsystem := null;
    }

    /** gameInstance is None when there is no game instance, otherwise the
        coordinator the game instance hands out (possibly none). */
    method MenuSetup(numberOfPublicConnections: int, typeOfMatch: string, pathToLobby: string,
                     gameInstance: Option<Sessions.MultiplayerSessionsSubsystem?>)
      modifies this
      ensures numPublicConnections == numberOfPublicConnections
      ensures matchType == typeOfMatch
      ensures lobbyPath == pathToLobby + ListenOption
      ensures subsystem == if gameInstance.Some? then gameInstance.value else old(subsystem)
    {
      numPublicConnections := numberOfPublicConnections;
      matchType := typeOfMatch;
      lobbyPath := pathToLobby + ListenOption;
      if gameInstance.Some? {
        subsystem := gameInstance.value;
      }
    }

    /** Hosting asks the coordinator to create a session with the stored
        settings; sessionExists and accepted are the backend's answers. */
    method HostButtonClicked(sessionExists: bool, accepted: bool)
      requires subsystem != null ==> subsystem.Valid()
      modifies subsystem
      ensures subsystem != null ==> subsystem.Valid()
      ensures subsystem != null ==>
        subsystem.Model() == Spec.CreateSession(old(subsystem.Model()), numPublicConnections, matchType, sessionExists, accepted)
    {
      if subsystem != null {
        subsystem.CreateSession(numPublicConnections, matchType, sessionExists, accepted);
      }
    }

    /** Joining starts a search with the fixed result cap. */
    method JoinButtonClicked(accepted: bool)
      requires subsystem != null ==> subsystem.Valid()
      modifies subsystem
      ensures subsystem != null ==> subsystem.Valid()
      ensures subsystem != null ==>
        subsystem.Model() == Spec.FindSessions(old(subsystem.Model()), JoinSearchMaxResults, accepted)
    {
      if subsystem != null {
        subsystem.FindSessions(JoinSearchMaxResults, accepted);
      }
    }

    /** Joins the first valid result advertising the configured match type,
        when the search succeeded and there is a coordinator; accepted is
        the backend's answer to that join. */
    method TryJoinSession(results: seq<SearchResult>, wasSuccessful: bool, accepted: bool) returns (joined: bool)
      requires subsystem != null ==> subsystem.Valid()
      modifies subsystem
      ensures joined <==> wasSuccessful && subsystem != null && FirstJoinable(results, matchType).Some?
      ensures subsystem != null ==> subsystem.Valid()
      ensures subsystem != null && !joined ==> subsystem.Model() == old(subsystem.Model())
      ensures joined ==>
        subsystem.Model() == Spec.JoinSession(old(subsystem.Model()), results[FirstJoinable(results, matchType).value], accepted)
    {
      if !wasSuccessful {
        return false;
      }
      if subsystem == null {
        return false;
      }
      var i := 0;
      while i < |results|
        invariant 0 <= i <= |results|
        invariant forall j :: 0 <= j < i ==> !Joinable(results[j], matchType)
        invariant subsystem.Valid() && subsystem.Model() == old(subsystem.Model())
      {
        if !results[i].valid {
          i := i + 1;
          continue;
        }
        var resultMatchType := MatchTypeOf(results[i]);
        if EqualsIgnoreCase(resultMatchType, matchType) {
          subsystem.JoinSession(results[i], accepted);
          return true;
        }
        i := i + 1;
      }
      return false;
    }
  }

  /** A menu set up with its declared defaults on a LAN host with no session:
      hosting issues one create request with two public connections and the
      FreeForAll attribute, and the lobby is opened listening. */
  method DefaultHostScenario() returns (calls: seq<Spec.BackendCall>, lobby: string)
    ensures calls == [Spec.CreateRequest(BuildSettings(2, "FreeForAll", Some(OnlineSubsystem("NULL", true))))]
    ensures calls[0].settings.isLANMatch
    ensures lobby == "/Game/Maps/Lobby?listen"
  {
    var coordinator := new Sessions.MultiplayerSessionsSubsystem(Some(OnlineSubsystem("NULL", true)));
    var menu := new Menu(0);
    menu.MenuSetup(DefaultNumPublicConnections, DefaultMatchType, DefaultLobbyPath, Some(coordinator));
    menu.HostButtonClicked(false, true);
    calls, lobby := coordinator.calls, menu.lobbyPath;
  }
}
