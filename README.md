# Multiplayer sessions: the session-lifecycle coordinator and the menu's join choice

This project models the two parts of the MultiplayerSessions plugin that hold
real logic.

**The session-lifecycle coordinator** (`UMultiplayerSessionsSubsystem`)
drives an opaque online-session backend through five operations: create,
find, join, destroy and start. Every operation follows one discipline. It
registers a completion delegate and issues one backend call. If the backend
rejects the call synchronously, it clears the delegate and broadcasts a
failure. Otherwise the completion handler clears the delegate and broadcasts
the outcome. Three rules sit on top of this:

- A create that meets an existing session saves its intent (the last writer
  wins), destroys the session first, and replays the create when the destroy
  completes successfully.
- A find is ignored while the last search is in progress.
- A join whose resolved address is empty is reported as `UnknownError`.

**The menu widget** (`UMenu`) keeps the host settings, forwards them to
`CreateSession` from its Host button, starts a capped search from its Join
button, and has a selection routine,
`TryJoinSession`, that joins the first valid result advertising the
configured match type. The search-outcome listener does not call it.

## How it is modelled

- `online_types.dfy` (`OnlineTypes`): the values that cross the backend
  boundary. These are session settings, search queries, search results with
  their advertised attributes, join result codes, LAN detection and the
  settings/query builders.
- `sessions_spec.dfy` (`SessionsSpec`): the coordinator as a state
  transition system. `Coordinator` holds every field of the C++ object. It
  also holds three things the backend and the listeners see: the set of
  registered delegates, the log of backend calls and the log of broadcast
  outcomes. There is one function per operation and per completion handler.
  `Apply` and `Run` give the effect of one input and of a sequence of inputs.
- `sessions_subsystem.dfy` (`Sessions`): the coordinator as a class. Its
  fields are the source's fields, and its methods follow the C++ bodies
  statement by statement. Every method is proved to move the object
  (`Model()`) exactly as the matching `SessionsSpec` function moves the state,
  and to keep the invariant `Valid()`.
- `sessions_properties.dfy` (`SessionsProperties`): the guarantees, proved
  about the spec functions and about runs of inputs.
- `menu.dfy` (`MenuWidget`): the first-match selection as a function with
  lemmas, and the `Menu` class. `TryJoinSession` is a loop proved against
  that function, and it drives the coordinator class.

Backend answers are method parameters. These are: whether the named session
exists, whether the backend accepts the one call an operation issues, the
resolved connect string, and the results of a finished search. The online
subsystem, and whether it offered a session interface, are fixed when the
coordinator is constructed. A completion handler requires that some
delegate of its kind is still registered, whether or not its handle is the
one stored. This is how the model says that only the backend fires it, and
only through a registered delegate. The handler clears the stored handle
only.

Three comparisons in the code ignore case, and the model folds ASCII
letters for each (`OnlineTypes.EqualsIgnoreCase`):

- the menu compares match types with `FString ==`;
- LAN detection compares the subsystem's `FName` with "NULL";
- session attributes are keyed by `FName`, so the menu's lookup of
  "MatchType" finds the attribute however its name is cased.

For the last, an attribute map (`OnlineTypes.Attributes`) holds each name in
its folded form (`AttributeKey`), so names that differ only in case are the
same key.

Three behaviours of the code are easy to miss:

- The code guards only find against overlapping calls. A second create,
  join, destroy or start registers a second delegate and overwrites the
  stored handle, so the first registration stays live, whether the second
  call is accepted or rejected. The first delegate can still fire its
  handler. `LeakedDestroyDelegateReplaysCreate` shows this for a destroy
  followed by a create over an existing session.
- On the recreate path, a destroy that the backend rejects leaves the
  deferred-create flag set. A later, unrelated successful destroy completion
  then replays the saved create.
- A destroy completion can broadcast two destroy outcomes. This happens when
  the replayed create finds a session again and the backend rejects its
  destroy. `DestroyCompletionReportsOnce` states this exception.

## Model

| member | source | states |
|---|---|---|
| Sessions.MultiplayerSessionsSubsystem.constructor | Source/MultiplayerSessions/Private/MultiplayerSessionsSubsystem.cpp:17-29 | The session interface is valid exactly when an online subsystem exists and offers one; nothing is registered, issued or broadcast yet |
| Sessions.MultiplayerSessionsSubsystem.CreateSession | Source/MultiplayerSessions/Private/MultiplayerSessionsSubsystem.cpp:31-65 | The object moves exactly as `SessionsSpec.CreateSession` (defer-and-destroy, or register, build settings, issue, clear and report on rejection) and stays valid |
| Sessions.MultiplayerSessionsSubsystem.FindSessions | Source/MultiplayerSessions/Private/MultiplayerSessionsSubsystem.cpp:67-91 | The object moves exactly as `SessionsSpec.FindSessions` (no-op while a search is in progress) and stays valid |
| Sessions.MultiplayerSessionsSubsystem.JoinSession | Source/MultiplayerSessions/Private/MultiplayerSessionsSubsystem.cpp:93-107 | The object moves exactly as `SessionsSpec.JoinSession` and stays valid |
| Sessions.MultiplayerSessionsSubsystem.DestroySession | Source/MultiplayerSessions/Private/MultiplayerSessionsSubsystem.cpp:109-121 | The object moves exactly as `SessionsSpec.DestroySession` and stays valid |
| Sessions.MultiplayerSessionsSubsystem.StartSession | Source/MultiplayerSessions/Private/MultiplayerSessionsSubsystem.cpp:123-135 | The object moves exactly as `SessionsSpec.StartSession` and stays valid |
| Sessions.MultiplayerSessionsSubsystem.OnCreateSessionComplete | Source/MultiplayerSessions/Private/MultiplayerSessionsSubsystem.cpp:137-145 | When a create delegate is awaited, clears it and broadcasts the signalled result, as `SessionsSpec.OnCreateSessionComplete` |
| Sessions.MultiplayerSessionsSubsystem.OnFindSessionsComplete | Source/MultiplayerSessions/Private/MultiplayerSessionsSubsystem.cpp:147-155 | When a find delegate is awaited, a last search exists; the handler clears the delegate, finishes the search and broadcasts its results with the signalled flag |
| Sessions.MultiplayerSessionsSubsystem.OnJoinSessionComplete | Source/MultiplayerSessions/Private/MultiplayerSessionsSubsystem.cpp:157-170 | Clears the join delegate and broadcasts the resolved address with the result downgraded when it is empty, as `SessionsSpec.OnJoinSessionComplete` |
| Sessions.MultiplayerSessionsSubsystem.OnDestroySessionComplete | Source/MultiplayerSessions/Private/MultiplayerSessionsSubsystem.cpp:172-186 | Clears the destroy delegate, replays a deferred create on success (re-entering `CreateSession`), then broadcasts the destroy result |
| Sessions.MultiplayerSessionsSubsystem.OnStartSessionComplete | Source/MultiplayerSessions/Private/MultiplayerSessionsSubsystem.cpp:188-195 | Clears the start delegate and broadcasts the signalled result |
| SessionsProperties.ApplyPreservesValid | Source/MultiplayerSessions/Private/MultiplayerSessionsSubsystem.cpp:31-195 | No input breaks the invariant: new handles are fresh, each stored handle is of its own kind, delegates are registered only through a valid interface, and a stored find handle implies a last search |
| SessionsProperties.RunPreservesValid | Source/MultiplayerSessions/Private/MultiplayerSessionsSubsystem.cpp:31-195 | The invariant holds after any sequence of calls and completion signals |
| SessionsProperties.RunOnlyAppends | Source/MultiplayerSessions/Private/MultiplayerSessionsSubsystem.cpp:31-195 | Over any run, backend calls and broadcasts are only ever appended, and the backend the coordinator was built on does not change |
| SessionsProperties.RejectedCallLeavesDelegates | Source/MultiplayerSessions/Private/MultiplayerSessionsSubsystem.cpp:31-135 | A call the backend rejects leaves the registered delegates exactly as before: what issuance registered, the rejection cleared |
| SessionsProperties.RejectedCallReportsFailure | Source/MultiplayerSessions/Private/MultiplayerSessionsSubsystem.cpp:31-135 | A call that is rejected or meets no interface broadcasts exactly one failure of its own kind: `Created(false)`, `Found([], false)`, `Joined(UnknownError, "")`, `Destroyed(false)` or `Started(false)` |
| SessionsProperties.AcceptedCallAwaitsCompletion | Source/MultiplayerSessions/Private/MultiplayerSessionsSubsystem.cpp:31-135 | An accepted call broadcasts nothing, issues exactly the backend call for it (the create request with the built settings, or a destroy when a session exists; the find request with the built query; the join request carrying the chosen result; the destroy or start request) and leaves exactly one new, previously unregistered delegate, stored under the kind whose completion clears it |
| SessionsProperties.CompletionClearsItsDelegate | Source/MultiplayerSessions/Private/MultiplayerSessionsSubsystem.cpp:137-195 | Each completion handler removes exactly the delegate stored for its kind, unless a destroy completion replays a create |
| SessionsProperties.CallThenCompletionRestoresDelegates | Source/MultiplayerSessions/Private/MultiplayerSessionsSubsystem.cpp:31-195 | An accepted call followed by its completion leaves the registered delegates exactly as before the call |
| SessionsProperties.CreateRequestCarriesIntent | Source/MultiplayerSessions/Private/MultiplayerSessionsSubsystem.cpp:44-64 | With no session present, exactly one create request is issued, carrying the requested connection count, the LAN flag, the match-type attribute and the join/advertise/presence flags; the same settings are kept; on rejection exactly `Created(false)` is broadcast |
| SessionsProperties.CreateWithExistingSessionDefers | Source/MultiplayerSessions/Private/MultiplayerSessionsSubsystem.cpp:35-41 | With a session present, the flag is set and the intent overwritten; only a destroy is requested, no create delegate, create request or create outcome appears |
| SessionsProperties.RepeatedCreatesKeepLastIntent | Source/MultiplayerSessions/Private/MultiplayerSessionsSubsystem.cpp:35-41 | After any number of creates that meet a session, the saved intent is the last one, every new call is a destroy and every new broadcast is a destroy failure |
| SessionsProperties.DestroyCompletionRecreates | Source/MultiplayerSessions/Private/MultiplayerSessionsSubsystem.cpp:179-185 | A successful destroy completion with a deferred create clears the flag and issues the create with the saved intent; that create's failure, if any, is broadcast before `Destroyed(true)` |
| SessionsProperties.DestroyCompletionReportsOnce | Source/MultiplayerSessions/Private/MultiplayerSessionsSubsystem.cpp:172-186 | A destroy completion always ends with its own outcome, broadcast once (save the re-met-session case); a failed completion keeps the flag and issues nothing |
| SessionsProperties.LastRequestedIntentIsRecreated | Source/MultiplayerSessions/Private/MultiplayerSessionsSubsystem.cpp:31-186 | After creates over an existing session and a successful destroy completion, the create issued carries the last requested intent and only destroys were requested before it |
| SessionsProperties.SearchGuardIsNoOp | Source/MultiplayerSessions/Private/MultiplayerSessionsSubsystem.cpp:69-72 | A find while the last search is in progress changes nothing at all |
| SessionsProperties.FindRequestCarriesQuery | Source/MultiplayerSessions/Private/MultiplayerSessionsSubsystem.cpp:74-86 | An issued find carries the LAN flag, the result cap and the presence filter, and the new search is in progress exactly when accepted |
| SessionsProperties.FindCompletionReportsResults | Source/MultiplayerSessions/Private/MultiplayerSessionsSubsystem.cpp:147-155 | The find completion broadcasts the search's result list with the signalled flag, and a new search may then start |
| SessionsProperties.NoOverlappingSearches | Source/MultiplayerSessions/Private/MultiplayerSessionsSubsystem.cpp:67-91 | Until a find completion arrives, no input issues a find request or broadcasts a find outcome, and the search stays as it was |
| SessionsProperties.JoinCompletionReport | Source/MultiplayerSessions/Private/MultiplayerSessionsSubsystem.cpp:157-170 | The join outcome carries the resolved address; its code is `UnknownError` iff the address is empty or the signalled code is `UnknownError`, and otherwise equals the signalled code |
| SessionsProperties.LanModeFromSubsystem | Source/MultiplayerSessions/Private/MultiplayerSessionsSubsystem.cpp:10-14 | Create settings and search queries agree on LAN mode, which holds iff there is no subsystem or its name equals "NULL" ignoring case |
| SessionsProperties.NullNameInAnyCaseIsLan | Source/MultiplayerSessions/Private/MultiplayerSessionsSubsystem.cpp:10-14 | Subsystems named "Null" and "null" give LAN mode; one named "Steam" does not |
| OnlineTypes.LanMatchIffNullName | Source/MultiplayerSessions/Private/MultiplayerSessionsSubsystem.cpp:10-14 | LAN mode holds iff there is no online subsystem or its name, with ASCII letters lowered, is "null" |
| OnlineTypes.SettingsCarryRequest | Source/MultiplayerSessions/Private/MultiplayerSessionsSubsystem.cpp:46-54 | The create settings carry the requested connection count and the LAN mode; they allow join in progress and join via presence, are advertised and use presence; their only attribute is the match type, which a client reads back unchanged |
| OnlineTypes.QueryCarriesRequest | Source/MultiplayerSessions/Private/MultiplayerSessionsSubsystem.cpp:78-81 | The search query is LAN exactly when hosting would be, carries the requested result cap and asks for presence sessions only |
| OnlineTypes.MatchTypeOfAnyCase | Source/MultiplayerSessions/Private/Menu.cpp:219-220 | The match type read from a result is the value under the attribute whose name equals "MatchType" ignoring case, and "" when there is no such attribute |
| OnlineTypes.MatchTypeUnderAnySpelling | Source/MultiplayerSessions/Private/Menu.cpp:219-220 | However a host spells the "MatchType" attribute name, a client reads the value stored under it |
| OnlineTypes.LowerStringIsPointwise | Source/MultiplayerSessions/Private/Menu.cpp:221 | Folding keeps the length and lowers each character on its own, as the engine's case-insensitive comparison does |
| OnlineTypes.EqualsIgnoreCaseIsPointwise | Source/MultiplayerSessions/Private/Menu.cpp:221 | Two strings are equal ignoring case iff they have the same length and agree at every position after folding |
| SessionsProperties.LanHostScenario | Source/MultiplayerSessions/Private/MultiplayerSessionsSubsystem.cpp:44-64 | A LAN host creating (4, "FreeForAll") issues one create request with those settings; completion reports `Created(true)` and leaves no delegate registered |
| SessionsProperties.LeakedDestroyDelegateReplaysCreate | Source/MultiplayerSessions/Private/MultiplayerSessionsSubsystem.cpp:109-186 | After an accepted destroy, a create over an existing session whose destroy is rejected leaves the first destroy delegate live though its handle is no longer stored; when it completes successfully, the saved create is issued and `Destroyed(true)` follows the earlier `Destroyed(false)` |
| SessionsProperties.RecreateOrderScenario | Source/MultiplayerSessions/Private/MultiplayerSessionsSubsystem.cpp:172-186 | Recreating over an existing session requests the destroy before the create, and reports `Destroyed(true)` before the replayed create's `Created(true)` |
| MenuWidget.FirstJoinable | Source/MultiplayerSessions/Private/Menu.cpp:212-229 | The choice is a valid result advertising the configured match type (ignoring case) with no such result before it; none is chosen iff no such result exists |
| MenuWidget.InvalidEntriesNeverChosen | Source/MultiplayerSessions/Private/Menu.cpp:214-217 | Replacing an invalid result by any other invalid result, whatever its match type, leaves the choice unchanged |
| MenuWidget.FirstJoinableAppend | Source/MultiplayerSessions/Private/Menu.cpp:212-227 | The choice in a concatenation is the first part's choice if it has one, else the second part's shifted by the first part's length |
| MenuWidget.AdvertisedMatchTypeIsJoinable | Source/MultiplayerSessions/Private/Menu.cpp:219-221 | A valid result carrying a host's create settings is joinable iff the host's match type equals the configured one ignoring case |
| MenuWidget.CaseInsensitiveMatchScenario | Source/MultiplayerSessions/Private/Menu.cpp:219-225 | A result advertising "freeforall" is joined by a menu configured with "FreeForAll" |
| MenuWidget.SecondResultScenario | Source/MultiplayerSessions/Private/Menu.cpp:212-226 | With results [Ranked, FreeForAll] and FreeForAll configured, the second result is chosen |
| MenuWidget.Menu.constructor | Source/MultiplayerSessions/Public/Menu.h:60-64 | A new menu holds no coordinator and empty match type and lobby path |
| MenuWidget.Menu.MenuSetup | Source/MultiplayerSessions/Private/Menu.cpp:64-95 | Stores the connection count and match type unchanged, sets the lobby path to the given path plus "?listen", and takes the game instance's coordinator when there is a game instance |
| MenuWidget.Menu.HostButtonClicked | Source/MultiplayerSessions/Private/Menu.cpp:232-239 | With a coordinator, it creates a session with the stored connection count and match type; without one nothing happens |
| MenuWidget.Menu.JoinButtonClicked | Source/MultiplayerSessions/Private/Menu.cpp:241-249 | With a coordinator, it finds sessions with a cap of 100000; without one nothing happens |
| MenuWidget.Menu.TryJoinSession | Source/MultiplayerSessions/Private/Menu.cpp:198-230 | Returns true iff the search succeeded, there is a coordinator and some valid result matches the match type ignoring case; then exactly one join is made, on the first such result; otherwise the coordinator is untouched |
| MenuWidget.DefaultHostScenario | Source/MultiplayerSessions/Public/Menu.h:24-27 | A menu set up with its declared defaults on a LAN host issues one create request with 2 connections and "FreeForAll", and its lobby path is "/Game/Maps/Lobby?listen" |

## Left out

- The backend's implementation is not modelled: how it keeps sessions, searches and resolves addresses. Its answers are parameters.
- The reserved session name is implicit: every backend call and lookup is for the one game session.
- The local-player and unique-net-id lookups are left out, along with a missing world or player, because they belong to the engine.
- `bUseLobbiesIfAvailable` and `BuildUniqueId` are not in the modelled settings, because nothing in the coordinator or the menu reads them.
- Delegate multicast is not modelled. One completion signal runs the handler once, as long as some delegate of its kind is still registered. When a leaked registration leaves two delegates of one kind, the backend would run the handler once per delegate; the model runs it once.
- Listener order is not modelled: a broadcast is one appended log entry.
- The state an accepted find leaves its search in is taken to be `InProgress` until its completion. The backend sets this state. `FindRequestCarriesQuery` ("in progress exactly when accepted") and the find guard that `NoOverlappingSearches` relies on both depend on it.
- The state a rejected find leaves its search in is taken to be `Failed`. The backend sets this state. The coordinator only needs it not to be `InProgress`.
- The state a completed find leaves its search in is taken to be `Done` on success and `Failed` otherwise. The backend sets this state before it fires the completion. `FindCompletionReportsResults` relies on it for "a new search may then start".
- Case folding covers ASCII letters only; how the engine folds other characters is not modelled.
- Attribute names are held in folded form, so the casing a host used when it named an attribute is not kept. Only lookup depends on a name, and lookup ignores case.
- MultiplayerSessionsSubsystem.h is not part of this model. The initial values of the deferred-create fields are taken as false, 0 and "".
- Connection counts and result caps are `int32` in the source. Nothing does arithmetic on them, so they are unbounded integers here.
- `OnFindSessions` (Menu.cpp:151-157) is not modelled. As written, it tests `TryJoinSession` without calling it, so the selection logic never runs from the search outcome.
- In `MenuSetup`, binding the menu's listeners to the five outcome broadcasts is left out, along with viewport, focus and input-mode handling. These are presentation.
- Left out as presentation and I/O: the on-screen debug printing, button enabling, `ServerTravel`/`ClientTravel`, `Initialize`, `NativeDestruct`, `MenuTearDown`, and the listener reactions `OnCreateSession`, `OnJoinSession`, `OnDestroySession` and `OnStartSession`.
