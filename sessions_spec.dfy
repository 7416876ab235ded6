/** The session-lifecycle coordinator as a state-transition system: one
    function per operation and per completion handler, each mapping the
    coordinator's state (its own fields plus what it has done to the backend
    and to its listeners) to the next state. The class in module Sessions
    is proved to follow these functions step by step. */
module SessionsSpec {
  import opened OnlineTypes

  /** The five operation kinds, each with its own completion delegate. */
  datatype OpKind = CreateKind | FindKind | JoinKind | DestroyKind | StartKind

  /** A completion delegate registered with the backend. Ids are never
      reused, so every registration gets a handle of its own. */
  datatype DelegateHandle = DelegateHandle(kind: OpKind, id: nat)

  /** An outcome broadcast to listeners. */
  datatype Event =
    | Created(success: bool)
    | Found(results: seq<SearchResult>, success: bool)
    | Joined(result: JoinResult, address: string)
    | Destroyed(success: bool)
    | Started(success: bool)

  /** A call issued to the backend for the reserved game-session name. */
  datatype BackendCall =
    | CreateRequest(settings: SessionSettings)
    | FindRequest(query: SearchQuery)
    | JoinRequest(result: SearchResult)
    | DestroyRequest
    | StartRequest

  /** The coordinator's fields, the delegates the backend holds for it, the
      calls it has issued and the outcomes it has broadcast (oldest first). */
  datatype Coordinator = Coordinator(
    interfaceValid: bool,
    subsystem: Option<OnlineSubsystem>,
    createSessionOnDestroy: bool,
    lastNumPublicConnections: int,
    lastMatchType: string,
    lastSessionSettings: Option<SessionSettings>,
    lastSessionSearch: Option<SessionSearch>,
    handles: map<OpKind, DelegateHandle>,
    registered: set<DelegateHandle>,
    nextHandleId: nat,
    calls: seq<BackendCall>,
    events: seq<Event>)

  /** A fresh coordinator: the session interface exists only when the
      subsystem exists and offers one. */
  function Initial(subsystem: Option<OnlineSubsystem>): Coordinator {
    Coordinator(
      interfaceValid := subsystem.Some? && subsystem.value.hasSessionInterface,
      subsystem := subsystem,
      createSessionOnDestroy := false,
      lastNumPublicConnections := 0,
      lastMatchType := "",
      lastSessionSettings := None,
      lastSessionSearch := None,
      handles := map[],
      registered := {},
      nextHandleId := 0,
      calls := [],
      events := [])
  }

  /** What every reachable state satisfies: handle ids below the next id
      (so a new registration is fresh), a handle stored for the kind of
      every registered delegate, each stored handle of its own kind,
      registrations only through a valid interface, and a search object
      whenever a find delegate was ever stored. */
  ghost predicate Valid(s: Coordinator) {
    && (forall h :: h in s.registered ==> h.id < s.nextHandleId && h.kind in s.handles)
    && (forall k :: k in s.handles ==> s.handles[k].kind == k && s.handles[k].id < s.nextHandleId)
    && (s.registered != {} ==> s.interfaceValid)
    && (FindKind in s.handles ==> s.lastSessionSearch.Some?)
  }

  /** Some delegate of kind k is still registered, whether or not it is the
      one whose handle is stored: the backend may fire the completion of
      kind k. A second call of a kind overwrites the stored handle, and the
      earlier registration stays live. */
  predicate Awaiting(s: Coordinator, k: OpKind) {
    exists h :: h in s.registered && h.kind == k
  }

  predicate SearchInProgress(s: Coordinator) {
    s.lastSessionSearch.Some? && s.lastSessionSearch.value.state == InProgress
  }

  /** Registers a new completion delegate of kind k and stores its handle. */
  function Register(s: Coordinator, k: OpKind): Coordinator {
    var h := DelegateHandle(k, s.nextHandleId);
    s.(handles := s.handles[k := h], registered := s.registered + {h}, nextHandleId := s.nextHandleId + 1)
  }

  /** Clears the delegate whose handle is stored for kind k (no effect when
      none was ever stored or it is already cleared). */
  function Clear(s: Coordinator, k: OpKind): Coordinator {
    if k in s.handles then s.(registered := s.registered - {s.handles[k]}) else s
  }

  function Issue(s: Coordinator, c: BackendCall): Coordinator {
    s.(calls := s.calls + [c])
  }

  function Broadcast(s: Coordinator, e: Event): Coordinator {
    s.(events := s.events + [e])
  }

  /** CreateSession: with a session already present, save the intent and
      destroy first; otherwise register, build settings and issue the create.
      sessionExists is the backend's answer to the named-session lookup and
      accepted its answer to the one call this operation issues. */
  function CreateSession(s: Coordinator, numPublicConnections: int, matchType: string, sessionExists: bool, accepted: bool): Coordinator {
    if !s.interfaceValid then
      Broadcast(s, Created(false))
    else if sessionExists then
      DestroySession(s.(createSessionOnDestroy := true,
                        lastNumPublicConnections := numPublicConnections,
                        lastMatchType := matchType), accepted)
    else
      var settings := BuildSettings(numPublicConnections, matchType, s.subsystem);
      var issued := Issue(Register(s, CreateKind).(lastSessionSettings := Some(settings)), CreateRequest(settings));
      if accepted then issued else Broadcast(Clear(issued, CreateKind), Created(false))
  }

  /** FindSessions: ignored while the last search is in progress. An
      accepted search is in progress until its completion; a rejected one is
      left failed by the backend. */
  function FindSessions(s: Coordinator, maxSearchResults: int, accepted: bool): Coordinator {
    if SearchInProgress(s) then
      s
    else if !s.interfaceValid then
      Broadcast(s, Found([], false))
    else
      var query := BuildQuery(maxSearchResults, s.subsystem);
      var search := SessionSearch(query, if accepted then InProgress else Failed, []);
      var issued := Issue(Register(s, FindKind).(lastSessionSearch := Some(search)), FindRequest(query));
      if accepted then issued else Broadcast(Clear(issued, FindKind), Found([], false))
  }

  function JoinSession(s: Coordinator, result: SearchResult, accepted: bool): Coordinator {
    if !s.interfaceValid then
      Broadcast(s, Joined(UnknownError, ""))
    else
      var issued := Issue(Register(s, JoinKind), JoinRequest(result));
      if accepted then issued else Broadcast(Clear(issued, JoinKind), Joined(UnknownError, ""))
  }

  function DestroySession(s: Coordinator, accepted: bool): Coordinator {
    if !s.interfaceValid then
      Broadcast(s, Destroyed(false))
    else
      var issued := Issue(Register(s, DestroyKind), DestroyRequest);
      if accepted then issued else Broadcast(Clear(issued, DestroyKind), Destroyed(false))
  }

  function StartSession(s: Coordinator, accepted: bool): Coordinator {
    if !s.interfaceValid then
      Broadcast(s, Started(false))
    else
      var issued := Issue(Register(s, StartKind), StartRequest);
      if accepted then issued else Broadcast(Clear(issued, StartKind), Started(false))
  }

  function OnCreateSessionComplete(s: Coordinator, success: bool): Coordinator {
    Broadcast(if s.interfaceValid then Clear(s, CreateKind) else s, Created(success))
  }

  /** The backend has stored the results in the last search and finished it
      before it fires the completion; the handler reports that list. */
  function OnFindSessionsComplete(s: Coordinator, success: bool, results: seq<SearchResult>): Coordinator
    requires s.lastSessionSearch.Some?
  {
    var cleared := if s.interfaceValid then Clear(s, FindKind) else s;
    var search := s.lastSessionSearch.value.(state := if success then Done else Failed, results := results);
    Broadcast(cleared.(lastSessionSearch := Some(search)), Found(results, success))
  }

  /** resolved is the connect string the backend resolves for the session
      ("" when it cannot); an empty address downgrades the result. */
  function OnJoinSessionComplete(s: Coordinator, result: JoinResult, resolved: string): Coordinator {
    var cleared := if s.interfaceValid then Clear(s, JoinKind) else s;
    var address := if s.interfaceValid then resolved else "";
    Broadcast(cleared, Joined(if address == "" then UnknownError else result, address))
  }

  /** A successful destroy with a deferred recreate re-enters CreateSession
      with the saved intent before the destroy outcome is broadcast;
      sessionExists and accepted are the backend's answers to that create. */
  function OnDestroySessionComplete(s: Coordinator, success: bool, sessionExists: bool, accepted: bool): Coordinator {
    var cleared := if s.interfaceValid then Clear(s, DestroyKind) else s;
    var recreated :=
      if success && cleared.createSessionOnDestroy then
        CreateSession(cleared.(createSessionOnDestroy := false),
                      cleared.lastNumPublicConnections, cleared.lastMatchType, sessionExists, accepted)
      else cleared;
    Broadcast(recreated, Destroyed(success))
  }

  function OnStartSessionComplete(s: Coordinator, success: bool): Coordinator {
    Broadcast(if s.interfaceValid then Clear(s, StartKind) else s, Started(success))
  }

  /** One input to the coordinator: a call from a client or a completion
      signal from the backend, with the backend's answers it needs. */
  datatype Op =
    | CallCreate(numPublicConnections: int, matchType: string, sessionExists: bool, accepted: bool)
    | CallFind(maxSearchResults: int, accepted: bool)
    | CallJoin(result: SearchResult, accepted: bool)
    | CallDestroy(accepted: bool)
    | CallStart(accepted: bool)
    | CreateDone(success: bool)
    | FindDone(success: bool, results: seq<SearchResult>)
    | JoinDone(joinResult: JoinResult, resolved: string)
    | DestroyDone(success: bool, sessionExists: bool, accepted: bool)
    | StartDone(success: bool)
  {
    predicate IsCall() {
      CallCreate? || CallFind? || CallJoin? || CallDestroy? || CallStart?
    }

    function Kind(): OpKind {
      match this
      case CallCreate(_, _, _, _) => CreateKind
      case CallFind(_, _) => FindKind
      case CallJoin(_, _) => JoinKind
      case CallDestroy(_) => DestroyKind
      case CallStart(_) => StartKind
      case CreateDone(_) => CreateKind
      case FindDone(_, _) => FindKind
      case JoinDone(_, _) => JoinKind
      case DestroyDone(_, _, _) => DestroyKind
      case StartDone(_) => StartKind
    }
  }

  /** The effect of one input. The backend fires only a delegate that is
      still registered, so a completion of a kind nobody awaits changes
      nothing. */
  function Apply(s: Coordinator, op: Op): Coordinator {
    match op
    case CallCreate(n, m, e, a) => CreateSession(s, n, m, e, a)
    case CallFind(max, a) => FindSessions(s, max, a)
    case CallJoin(r, a) => JoinSession(s, r, a)
    case CallDestroy(a) => DestroySession(s, a)
    case CallStart(a) => StartSession(s, a)
    case CreateDone(ok) =>
      if Awaiting(s, CreateKind) then OnCreateSessionComplete(s, ok) else s
    case FindDone(ok, rs) =>
      if Awaiting(s, FindKind) && s.lastSessionSearch.Some? then OnFindSessionsComplete(s, ok, rs) else s
    case JoinDone(r, addr) =>
      if Awaiting(s, JoinKind) then OnJoinSessionComplete(s, r, addr) else s
    case DestroyDone(ok, e, a) =>
      if Awaiting(s, DestroyKind) then OnDestroySessionComplete(s, ok, e, a) else s
    case StartDone(ok) =>
      if Awaiting(s, StartKind) then OnStartSessionComplete(s, ok) else s
  }

  /** The effect of a sequence of inputs, first to last. */
  function Run(s: Coordinator, ops: seq<Op>): Coordinator
    decreases |ops|
  {
    if ops == [] then s else Run(Apply(s, ops[0]), ops[1..])
  }
}
