/** The session-lifecycle coordinator as the object the game instance owns.
    Its methods follow the source operation by operation (register the
    completion delegate, issue the backend call, clear and report on a
    synchronous rejection; clear and report in the completion handler) and
    each is proved to move the object exactly as the matching function of
    SessionsSpec moves its state. */
module Sessions {
  import opened OnlineTypes
  import Spec = SessionsSpec
  import SessionsProperties

  class MultiplayerSessionsSubsystem {
    /** The online subsystem, fixed for the life of the process. */
    const subsystem: Option<OnlineSubsystem>
    /** Whether the session interface was obtained at construction. */
    const interfaceValid: bool

    // Deferred destroy-then-recreate
    var createSessionOnDestroy: bool
    var lastNumPublicConnections: int
    var lastMatchType: string

    var lastSessionSettings: Option<SessionSettings>
    var lastSessionSearch: Option<SessionSearch>

    /** The five delegate-handle fields, by operation kind. */
    var handles: map<Spec.OpKind, Spec.DelegateHandle>

    // What the backend and the listeners have seen of this object
    var registered: set<Spec.DelegateHandle>
    var nextHandleId: nat
    var calls: seq<Spec.BackendCall>
    var events: seq<Spec.Event>

    ghost function Model(): Spec.Coordinator
      reads this
    {
      Spec.Coordinator(interfaceValid, subsystem, createSessionOnDestroy, lastNumPublicConnections,
                       lastMatchType, lastSessionSettings, lastSessionSearch, handles, registered,
                       nextHandleId, calls, events)
    }

    ghost predicate Valid()
      reads this
    {
      Spec.Valid(Model())
    }

    constructor (onlineSubsystem: Option<OnlineSubsystem>)
      ensures Valid()
      ensures Model() == Spec.Initial(onlineSubsystem)
    {
      subsystem := onlineSubsystem;
      interfaceValid := onlineSubsystem.Some? && onlineSubsystem.value.hasSessionInterface;
      createSessionOnDestroy := false;
      lastNumPublicConnections := 0;
      lastMatchType := "";
      lastSessionSettings := None;
      lastSessionSearch := None;
      handles := map[];
      registered := {};
      nextHandleId := 0;
      calls := [];
      events := [];
    }

    /** Registers a completion delegate of the given kind and keeps its handle. */
    method AddDelegate(kind: Spec.OpKind)
      modifies this
      ensures Model() == Spec.Register(old(Model()), kind)
    {
      var handle := Spec.DelegateHandle(kind, nextHandleId);
      handles := handles[kind := handle];
      registered := registered + {handle};
      nextHandleId := nextHandleId + 1;
    }

    /** Clears the delegate whose handle is kept for the given kind. */
    method ClearDelegate(kind: Spec.OpKind)
      modifies this
      ensures Model() == Spec.Clear(old(Model()), kind)
    {
      if kind in handles {
        registered := registered - {handles[kind]};
      }
    }

    method Issue(call: Spec.BackendCall)
      modifies this
      ensures Model() == Spec.Issue(old(Model()), call)
    {
      calls := calls + [call];
    }

    method Broadcast(event: Spec.Event)
      modifies this
      ensures Model() == Spec.Broadcast(old(Model()), event)
    {
      events := events + [event];
    }

    /** sessionExists answers the named-session lookup; accepted answers the
        one backend call this operation issues (a create, or a destroy when a
        session is already there). */
    method CreateSession(numPublicConnections: int, matchType: string, sessionExists: bool, accepted: bool)
      requires Valid()
      modifies this
      ensures Valid()
      ensures Model() == Spec.CreateSession(old(Model()), numPublicConnections, matchType, sessionExists, accepted)
    {
      ghost var s0 := Model();
      SessionsProperties.CreateSessionPreservesValid(s0, numPublicConnections, matchType, sessionExists, accepted);
      if interfaceValid {
        if sessionExists {
          createSessionOnDestroy := true;
          lastNumPublicConnections := numPublicConnections;
          lastMatchType := matchType;
          assert Model() == s0.(createSessionOnDestroy := true, lastNumPublicConnections := numPublicConnections,
                                lastMatchType := matchType);
          DestroySession(accepted);
          return;
        }
        AddDelegate(Spec.CreateKind);
        var settings := BuildSettings(numPublicConnections, matchType, subsystem);
        lastSessionSettings := Some(settings);
        assert Model() == Spec.Register(s0, Spec.CreateKind).(lastSessionSettings := Some(settings));
        Issue(Spec.CreateRequest(settings));
        if accepted {
          return;
        }
        ClearDelegate(Spec.CreateKind);
      }
      Broadcast(Spec.Created(false));
    }

    /** Does nothing while the last search is still in progress. */
    method FindSessions(maxSearchResults: int, accepted: bool)
      requires Valid()
      modifies this
      ensures Valid()
      ensures Model() == Spec.FindSessions(old(Model()), maxSearchResults, accepted)
    {
      SessionsProperties.ApplyPreservesValid(Model(), Spec.CallFind(maxSearchResults, accepted));
      if lastSessionSearch.Some? && lastSessionSearch.value.state == InProgress {
        return;
      }
      if interfaceValid {
        AddDelegate(Spec.FindKind);
        var query := BuildQuery(maxSearchResults, subsystem);
        lastSessionSearch := Some(SessionSearch(query, if accepted then InProgress else Failed, []));
        Issue(Spec.FindRequest(query));
        if accepted {
          return;
        }
        ClearDelegate(Spec.FindKind);
      }
      Broadcast(Spec.Found([], false));
    }

    method JoinSession(result: SearchResult, accepted: bool)
      requires Valid()
      modifies this
      ensures Valid()
      ensures Model() == Spec.JoinSession(old(Model()), result, accepted)
    {
      SessionsProperties.ApplyPreservesValid(Model(), Spec.CallJoin(result, accepted));
      if interfaceValid {
        AddDelegate(Spec.JoinKind);
        Issue(Spec.JoinRequest(result));
        if accepted {
          return;
        }
        ClearDelegate(Spec.JoinKind);
      }
      Broadcast(Spec.Joined(UnknownError, ""));
    }

    method DestroySession(accepted: bool)
      requires Valid()
      modifies this
      ensures Valid()
      ensures Model() == Spec.DestroySession(old(Model()), accepted)
    {
      SessionsProperties.ApplyPreservesValid(Model(), Spec.CallDestroy(accepted));
      if interfaceValid {
        AddDelegate(Spec.DestroyKind);
        Issue(Spec.DestroyRequest);
        if accepted {
          return;
        }
        ClearDelegate(Spec.DestroyKind);
      }
      Broadcast(Spec.Destroyed(false));
    }

    method StartSession(accepted: bool)
      requires Valid()
      modifies this
      ensures Valid()
      ensures Model() == Spec.StartSession(old(Model()), accepted)
    {
      SessionsProperties.ApplyPreservesValid(Model(), Spec.CallStart(accepted));
      if interfaceValid {
        AddDelegate(Spec.StartKind);
        Issue(Spec.StartRequest);
        if accepted {
          return;
        }
        ClearDelegate(Spec.StartKind);
      }
      Broadcast(Spec.Started(false));
    }

    /** Completion handlers run only when the backend fires a delegate that
        is still registered. */
    method OnCreateSessionComplete(success: bool)
      requires Valid() && Spec.Awaiting(Model(), Spec.CreateKind)
      modifies this
      ensures Valid()
      ensures Model() == Spec.OnCreateSessionComplete(old(Model()), success)
    {
      SessionsProperties.ApplyPreservesValid(Model(), Spec.CreateDone(success));
      if interfaceValid {
        ClearDelegate(Spec.CreateKind);
      }
      Broadcast(Spec.Created(success));
    }

    /** results is the list the backend stored in the last search before it
        fired the completion. */
    method OnFindSessionsComplete(success: bool, results: seq<SearchResult>)
      requires Valid() && Spec.Awaiting(Model(), Spec.FindKind)
      modifies this
      ensures Valid()
      ensures old(Model()).lastSessionSearch.Some?
      ensures Model() == Spec.OnFindSessionsComplete(old(Model()), success, results)
    {
      SessionsProperties.ApplyPreservesValid(Model(), Spec.FindDone(success, results));
      var search := lastSessionSearch.value.(state := if success then Done else Failed, results := results);
      if interfaceValid {
        ClearDelegate(Spec.FindKind);
      }
      lastSessionSearch := Some(search);
      Broadcast(Spec.Found(results, success));
    }

    /** resolved is the connect string the backend resolves for the joined
        session, "" when it cannot. */
    method OnJoinSessionComplete(result: JoinResult, resolved: string)
      requires Valid() && Spec.Awaiting(Model(), Spec.JoinKind)
      modifies this
      ensures Valid()
      ensures Model() == Spec.OnJoinSessionComplete(old(Model()), result, resolved)
    {
      SessionsProperties.ApplyPreservesValid(Model(), Spec.JoinDone(result, resolved));
      var address := "";
      if interfaceValid {
        ClearDelegate(Spec.JoinKind);
        address := resolved;
      }
      var outResult := if address == "" then UnknownError else result;
      Broadcast(Spec.Joined(outResult, address));
    }

    /** sessionExists and accepted are the backend's answers to the create
        this handler replays when a recreate was deferred. */
    method OnDestroySessionComplete(success: bool, sessionExists: bool, accepted: bool)
      requires Valid() && Spec.Awaiting(Model(), Spec.DestroyKind)
      modifies this
      ensures Valid()
      ensures Model() == Spec.OnDestroySessionComplete(old(Model()), success, sessionExists, accepted)
    {
      SessionsProperties.ApplyPreservesValid(Model(), Spec.DestroyDone(success, sessionExists, accepted));
      if interfaceValid {
        ClearDelegate(Spec.DestroyKind);
      }
      SessionsProperties.ClearPreservesValid(old(Model()), Spec.DestroyKind);
      if success && createSessionOnDestroy {
        createSessionOnDestroy := false;
        CreateSession(lastNumPublicConnections, lastMatchType, sessionExists, accepted);
      }
      Broadcast(Spec.Destroyed(success));
    }

    method OnStartSessionComplete(success: bool)
      requires Valid() && Spec.Awaiting(Model(), Spec.StartKind)
      modifies this
      ensures Valid()
      ensures Model() == Spec.OnStartSessionComplete(old(Model()), success)
    {
      SessionsProperties.ApplyPreservesValid(Model(), Spec.StartDone(success));
      if interfaceValid {
        ClearDelegate(Spec.StartKind);
      }
      Broadcast(Spec.Started(success));
    }
  }
}
