/** What the coordinator guarantees, proved about the step functions of
    SessionsSpec and about runs of inputs. */
module SessionsProperties {
  import opened OnlineTypes
  import opened SessionsSpec

  /** The outcome an operation broadcasts when it cannot even be issued. */
  function FailureEvent(op: Op): Event
    requires op.IsCall()
  {
    match op
    case CallCreate(_, _, _, _) => Created(false)
    case CallFind(_, _) => Found([], false)
    case CallJoin(_, _) => Joined(UnknownError, "")
    case CallDestroy(_) => Destroyed(false)
    case CallStart(_) => Started(false)
  }

  /** The kind of backend call a client call issues: a create that finds a
      session already present issues a destroy instead. */
  function IssuedKind(op: Op): OpKind
    requires op.IsCall()
  {
    if op.CallCreate? && op.sessionExists then DestroyKind else op.Kind()
  }

  /** The backend call a client call issues, given the state it meets: a
      create that finds a session already present requests a destroy. */
  function RequestOf(s: Coordinator, op: Op): BackendCall
    requires op.IsCall()
  {
    match op
    case CallCreate(n, m, e, _) => if e then DestroyRequest else CreateRequest(BuildSettings(n, m, s.subsystem))
    case CallFind(max, _) => FindRequest(BuildQuery(max, s.subsystem))
    case CallJoin(r, _) => JoinRequest(r)
    case CallDestroy(_) => DestroyRequest
    case CallStart(_) => StartRequest
  }

  /** A client call that the find guard does not swallow. */
  predicate Issues(s: Coordinator, op: Op) {
    op.IsCall() && !(op.CallFind? && SearchInProgress(s))
  }

  // ---------------------------------------------------------------------
  // Invariant and append-only logs

  lemma ClearPreservesValid(s: Coordinator, k: OpKind)
    requires Valid(s)
    ensures Valid(Clear(s, k))
  {
  }

  lemma CreateSessionPreservesValid(s: Coordinator, n: int, m: string, sessionExists: bool, accepted: bool)
    requires Valid(s)
    ensures Valid(CreateSession(s, n, m, sessionExists, accepted))
  {
    if s.interfaceValid && !sessionExists {
      var issued := Issue(Register(s, CreateKind).(lastSessionSettings := Some(BuildSettings(n, m, s.subsystem))), CreateRequest(BuildSettings(n, m, s.subsystem)));
      assert Valid(issued);
      ClearPreservesValid(issued, CreateKind);
    }
  }

  lemma OnDestroySessionCompletePreservesValid(s: Coordinator, success: bool, sessionExists: bool, accepted: bool)
    requires Valid(s)
    ensures Valid(OnDestroySessionComplete(s, success, sessionExists, accepted))
  {
    var cleared := if s.interfaceValid then Clear(s, DestroyKind) else s;
    ClearPreservesValid(s, DestroyKind);
    if success && cleared.createSessionOnDestroy {
      CreateSessionPreservesValid(cleared.(createSessionOnDestroy := false),
        cleared.lastNumPublicConnections, cleared.lastMatchType, sessionExists, accepted);
    }
  }

  lemma ApplyPreservesValid(s: Coordinator, op: Op)
    requires Valid(s)
    ensures Valid(Apply(s, op))
  {
    if op.IsCall() {
      CallOpPreservesValid(s, op);
    } else {
      CompletionOpPreservesValid(s, op);
    }
  }

  lemma CallOpPreservesValid(s: Coordinator, op: Op)
    requires Valid(s) && op.IsCall()
    ensures Valid(Apply(s, op))
  {
    match op
    case CallCreate(n, m, e, a) => CreateSessionPreservesValid(s, n, m, e, a);
    case CallFind(max, a) =>
      FindSessionsPreservesValid(s, max, a);
      assert Apply(s, op) == FindSessions(s, max, a);
    case CallJoin(r, a) =>
      if s.interfaceValid { CallPreservesValid(s, JoinKind, JoinRequest(r)); }
      assert Apply(s, op) == JoinSession(s, r, a);
    case CallDestroy(a) =>
      if s.interfaceValid { CallPreservesValid(s, DestroyKind, DestroyRequest); }
      assert Apply(s, op) == DestroySession(s, a);
    case CallStart(a) =>
      if s.interfaceValid { CallPreservesValid(s, StartKind, StartRequest); }
      assert Apply(s, op) == StartSession(s, a);
  }

  lemma CompletionOpPreservesValid(s: Coordinator, op: Op)
    requires Valid(s) && !op.IsCall()
    ensures Valid(Apply(s, op))
  {
    match op
    case DestroyDone(ok, e, a) => OnDestroySessionCompletePreservesValid(s, ok, e, a);
    case CreateDone(ok) =>
      HandlerPreservesValid(s, CreateKind, Created(ok));
      assert Awaiting(s, CreateKind) ==> Apply(s, op) == OnCreateSessionComplete(s, ok);
    case FindDone(ok, rs) =>
      ClearPreservesValid(s, FindKind);
    case JoinDone(r, addr) =>
      var address := if s.interfaceValid then addr else "";
      HandlerPreservesValid(s, JoinKind, Joined(if address == "" then UnknownError else r, address));
      assert Awaiting(s, JoinKind) ==> Apply(s, op) == OnJoinSessionComplete(s, r, addr);
    case StartDone(ok) =>
      HandlerPreservesValid(s, StartKind, Started(ok));
      assert Awaiting(s, StartKind) ==> Apply(s, op) == OnStartSessionComplete(s, ok);
  }

  /** A completion handler that clears its delegate and broadcasts keeps the
      invariant. */
  lemma HandlerPreservesValid(s: Coordinator, k: OpKind, e: Event)
    requires Valid(s)
    ensures Valid(Broadcast(if s.interfaceValid then Clear(s, k) else s, e))
  {
    ClearPreservesValid(s, k);
  }

  /** Registering and issuing a call of a kind other than find keeps the
      invariant, and so does clearing it again. */
  lemma CallPreservesValid(s: Coordinator, k: OpKind, c: BackendCall)
    requires Valid(s) && s.interfaceValid && k != FindKind
    ensures Valid(Issue(Register(s, k), c))
    ensures Valid(Clear(Issue(Register(s, k), c), k))
  {
    ClearPreservesValid(Issue(Register(s, k), c), k);
  }

  lemma FindSessionsPreservesValid(s: Coordinator, maxSearchResults: int, accepted: bool)
    requires Valid(s)
    ensures Valid(FindSessions(s, maxSearchResults, accepted))
  {
    if !SearchInProgress(s) && s.interfaceValid {
      var query := BuildQuery(maxSearchResults, s.subsystem);
      var search := SessionSearch(query, if accepted then InProgress else Failed, []);
      var issued := Issue(Register(s, FindKind).(lastSessionSearch := Some(search)), FindRequest(query));
      assert Valid(issued);
      ClearPreservesValid(issued, FindKind);
    }
  }

  lemma {:induction false} RunPreservesValid(s: Coordinator, ops: seq<Op>)
    requires Valid(s)
    ensures Valid(Run(s, ops))
    decreases |ops|
  {
    if ops != [] {
      ApplyPreservesValid(s, ops[0]);
      RunPreservesValid(Apply(s, ops[0]), ops[1..]);
    }
  }

  /** t extends s: the logs of s are prefixes of those of t, and the
      backend the coordinator was built on is the same. */
  ghost predicate Extends(s: Coordinator, t: Coordinator) {
    && s.calls <= t.calls && s.events <= t.events
    && t.interfaceValid == s.interfaceValid && t.subsystem == s.subsystem
  }

  lemma ExtendsTransitive(a: Coordinator, b: Coordinator, c: Coordinator)
    requires Extends(a, b) && Extends(b, c)
    ensures Extends(a, c)
  {
  }

  lemma BuildingBlocksExtend(s: Coordinator, k: OpKind, c: BackendCall, e: Event)
    ensures Extends(s, Register(s, k)) && Extends(s, Clear(s, k))
    ensures Extends(s, Issue(s, c)) && Extends(s, Broadcast(s, e))
  {
  }

  lemma CreateSessionExtends(s: Coordinator, n: int, m: string, sessionExists: bool, accepted: bool)
    ensures Extends(s, CreateSession(s, n, m, sessionExists, accepted))
  {
    if s.interfaceValid && !sessionExists {
      var settings := BuildSettings(n, m, s.subsystem);
      var r := Register(s, CreateKind).(lastSessionSettings := Some(settings));
      var issued := Issue(r, CreateRequest(settings));
      assert Extends(s, issued);
      if !accepted {
        var cleared := Clear(issued, CreateKind);
        assert Extends(issued, cleared);
        ExtendsTransitive(s, issued, cleared);
        BuildingBlocksExtend(cleared, CreateKind, DestroyRequest, Created(false));
        ExtendsTransitive(s, cleared, Broadcast(cleared, Created(false)));
      }
    }
  }

  lemma OnDestroySessionCompleteExtends(s: Coordinator, success: bool, sessionExists: bool, accepted: bool)
    ensures Extends(s, OnDestroySessionComplete(s, success, sessionExists, accepted))
  {
    var cleared := if s.interfaceValid then Clear(s, DestroyKind) else s;
    assert Extends(s, cleared);
    var recreated :=
      if success && cleared.createSessionOnDestroy then
        CreateSession(cleared.(createSessionOnDestroy := false),
                      cleared.lastNumPublicConnections, cleared.lastMatchType, sessionExists, accepted)
      else cleared;
    if success && cleared.createSessionOnDestroy {
      CreateSessionExtends(cleared.(createSessionOnDestroy := false),
                           cleared.lastNumPublicConnections, cleared.lastMatchType, sessionExists, accepted);
    }
    assert Extends(s, recreated);
    assert Extends(recreated, Broadcast(recreated, Destroyed(success)));
    ExtendsTransitive(s, recreated, Broadcast(recreated, Destroyed(success)));
  }

  /** One input only appends to the call log and the event log and never
      changes the backend the coordinator was built on. */
  lemma ApplyOnlyAppends(s: Coordinator, op: Op)
    ensures Extends(s, Apply(s, op))
  {
    if op.IsCall() {
      CallOpExtends(s, op);
    } else {
      CompletionOpExtends(s, op);
    }
  }

  lemma CallOpExtends(s: Coordinator, op: Op)
    requires op.IsCall()
    ensures Extends(s, Apply(s, op))
  {
    match op
    case CallCreate(n, m, e, a) => CreateSessionExtends(s, n, m, e, a);
    case _ =>
  }

  lemma CompletionOpExtends(s: Coordinator, op: Op)
    requires !op.IsCall()
    ensures Extends(s, Apply(s, op))
  {
    match op
    case DestroyDone(ok, e, a) => OnDestroySessionCompleteExtends(s, ok, e, a);
    case _ =>
  }

  lemma {:induction false} RunOnlyAppends(s: Coordinator, ops: seq<Op>)
    ensures Extends(s, Run(s, ops))
    decreases |ops|
  {
    if ops != [] {
      ApplyOnlyAppends(s, ops[0]);
      RunOnlyAppends(Apply(s, ops[0]), ops[1..]);
      ExtendsTransitive(s, Apply(s, ops[0]), Run(s, ops));
    }
  }

  lemma {:induction false} RunAppend(s: Coordinator, ops: seq<Op>, op: Op)
    ensures Run(s, ops + [op]) == Apply(Run(s, ops), op)
    decreases |ops|
  {
    if ops == [] {
      assert ops + [op] == [op];
    } else {
      assert (ops + [op])[1..] == ops[1..] + [op];
      RunAppend(Apply(s, ops[0]), ops[1..], op);
    }
  }

  // ---------------------------------------------------------------------
  // Register/clear balance and exactly one outcome per call

  /** A call the backend rejects (or that meets no interface) leaves the
      delegates as they were: what issuance registered, it cleared. */
  lemma RejectedCallLeavesDelegates(s: Coordinator, op: Op)
    requires Valid(s) && op.IsCall() && !op.accepted
    ensures Apply(s, op).registered == s.registered
  {
    var h := DelegateHandle(IssuedKind(op), s.nextHandleId);
    assert h !in s.registered;
    assert s.registered + {h} - {h} == s.registered;
  }

  /** A call that cannot be issued broadcasts exactly one failure outcome
      of its own kind and nothing else. */
  lemma RejectedCallReportsFailure(s: Coordinator, op: Op)
    requires Issues(s, op) && (!op.accepted || !s.interfaceValid)
    requires !(op.CallCreate? && op.sessionExists && s.interfaceValid)
    ensures Apply(s, op).events == s.events + [FailureEvent(op)]
  {
  }

  /** An accepted call broadcasts nothing yet, issues exactly the backend
      call for it (a join request carries the chosen result) and leaves
      exactly one new delegate registered, stored under the kind whose
      completion will clear it. */
  lemma AcceptedCallAwaitsCompletion(s: Coordinator, op: Op)
    requires Valid(s) && s.interfaceValid && Issues(s, op) && op.accepted
    ensures var t := Apply(s, op); var k := IssuedKind(op);
      && t.events == s.events
      && t.calls == s.calls + [RequestOf(s, op)]
      && Awaiting(t, k)
      && t.handles[k] !in s.registered
      && t.registered == s.registered + {t.handles[k]}
  {
  }

  /** Running two inputs is applying one after the other. */
  lemma RunTwo(s: Coordinator, first: Op, second: Op)
    ensures Run(s, [first, second]) == Apply(Apply(s, first), second)
  {
    var u := Apply(s, first);
    assert [first, second][1..] == [second];
    assert Run(s, [first, second]) == Run(u, [second]);
    assert [second][1..] == [];
    assert Run(u, [second]) == Run(Apply(u, second), []);
  }

  lemma SetAddRemove<T>(a: set<T>, x: T)
    requires x !in a
    ensures a + {x} - {x} == a
  {
  }

  /** A completion handler clears exactly the delegate stored for its kind
      (a destroy completion that replays a deferred create excepted). */
  lemma CompletionClearsItsDelegate(s: Coordinator, done: Op)
    requires Valid(s) && !done.IsCall() && Awaiting(s, done.Kind())
    requires !(done.DestroyDone? && done.success && s.createSessionOnDestroy)
    ensures Apply(s, done).registered == s.registered - {s.handles[done.Kind()]}
  {
    assert s.interfaceValid;
    match done
    case DestroyDone(ok, e, a) =>
      assert Apply(s, done) == Broadcast(Clear(s, DestroyKind), Destroyed(ok));
    case _ =>
  }

  /** Issue-then-complete is balanced: once the completion of the issued
      kind has run, the registered delegates are those before the call. The
      one exception is a destroy completion that replays a deferred create,
      which registers that create's delegate. */
  lemma CallThenCompletionRestoresDelegates(s: Coordinator, op: Op, done: Op)
    requires Valid(s) && s.interfaceValid && Issues(s, op) && op.accepted
    requires !done.IsCall() && done.Kind() == IssuedKind(op)
    requires !(done.DestroyDone? && done.success && Apply(s, op).createSessionOnDestroy)
    ensures Run(s, [op, done]).registered == s.registered
  {
    var t := Apply(s, op);
    var k := IssuedKind(op);
    AcceptedCallAwaitsCompletion(s, op);
    ApplyPreservesValid(s, op);
    CompletionClearsItsDelegate(t, done);
    RunTwo(s, op, done);
    SetAddRemove(s.registered, t.handles[k]);
  }

  // ---------------------------------------------------------------------
  // CreateSession

  /** Create without a session: the request carries the requested number of
      public connections, the LAN flag and the match-type attribute, and the
      same settings are kept as the last session settings. */
  lemma CreateRequestCarriesIntent(s: Coordinator, numPublicConnections: int, matchType: string, accepted: bool)
    requires s.interfaceValid
    ensures var t := CreateSession(s, numPublicConnections, matchType, false, accepted);
      && |t.calls| == |s.calls| + 1
      && t.calls[..|s.calls|] == s.calls
      && t.calls[|s.calls|].CreateRequest?
      && var settings := t.calls[|s.calls|].settings;
      && settings.numPublicConnections == numPublicConnections
      && settings.isLANMatch == IsLANMatch(s.subsystem)
      && settings.attributes == map[MatchTypeAttributeKey := matchType]
      && settings.allowJoinInProgress && settings.allowJoinViaPresence
      && settings.shouldAdvertise && settings.usesPresence
      && t.lastSessionSettings == Some(settings)
      && t.events == (if accepted then s.events else s.events + [Created(false)])
  {
  }

  /** Create with a session present: the intent is saved (the last writer
      wins), a destroy is issued instead, and no create delegate, create
      request or create outcome appears. */
  lemma CreateWithExistingSessionDefers(s: Coordinator, numPublicConnections: int, matchType: string, accepted: bool)
    requires Valid(s) && s.interfaceValid
    ensures var t := CreateSession(s, numPublicConnections, matchType, true, accepted);
      && t.createSessionOnDestroy
      && t.lastNumPublicConnections == numPublicConnections
      && t.lastMatchType == matchType
      && t.lastSessionSettings == s.lastSessionSettings
      && t.calls == s.calls + [DestroyRequest]
      && t.events == (if accepted then s.events else s.events + [Destroyed(false)])
      && (forall h :: h in t.registered && h !in s.registered ==> h.kind == DestroyKind)
  {
  }

  /** Any number of creates while a session exists: only the last intent is
      kept, only destroys are issued and no create outcome is broadcast. */
  lemma {:induction false} RepeatedCreatesKeepLastIntent(s: Coordinator, ops: seq<Op>)
    requires s.interfaceValid && |ops| > 0
    requires forall i :: 0 <= i < |ops| ==> ops[i].CallCreate? && ops[i].sessionExists
    ensures var t := Run(s, ops);
      && t.createSessionOnDestroy
      && t.lastNumPublicConnections == ops[|ops| - 1].numPublicConnections
      && t.lastMatchType == ops[|ops| - 1].matchType
      && |t.calls| >= |s.calls| && t.calls[..|s.calls|] == s.calls
      && (forall i :: |s.calls| <= i < |t.calls| ==> t.calls[i] == DestroyRequest)
      && |t.events| >= |s.events| && t.events[..|s.events|] == s.events
      && (forall i :: |s.events| <= i < |t.events| ==> t.events[i] == Destroyed(false))
    decreases |ops|
  {
    var u := Apply(s, ops[0]);
    assert u.interfaceValid && u.calls == s.calls + [DestroyRequest];
    assert forall i :: |s.events| <= i < |u.events| ==> u.events[i] == Destroyed(false);
    if |ops| == 1 {
      assert Run(s, ops) == Run(u, []) == u;
    } else {
      assert forall i :: 0 <= i < |ops[1..]| ==> ops[1..][i] == ops[i + 1];
      RepeatedCreatesKeepLastIntent(u, ops[1..]);
      var t := Run(u, ops[1..]);
      assert t == Run(s, ops);
      assert t.calls[..|u.calls|] == u.calls;
      assert t.events[..|u.events|] == u.events;
      forall i | |s.calls| <= i < |t.calls|
        ensures t.calls[i] == DestroyRequest
      {
        if i < |u.calls| {
          assert t.calls[i] == u.calls[i];
        }
      }
      forall i | |s.events| <= i < |t.events|
        ensures t.events[i] == Destroyed(false)
      {
        if i < |u.events| {
          assert t.events[i] == u.events[i];
        }
      }
      assert t.calls[..|s.calls|] == u.calls[..|s.calls|];
      assert t.events[..|s.events|] == u.events[..|s.events|];
    }
  }

  // ---------------------------------------------------------------------
  // DestroySession completion

  /** A successful destroy completion with a deferred create clears the
      flag and issues the create with the saved intent; that create and any
      failure it reports come before the destroy outcome. */
  lemma DestroyCompletionRecreates(s: Coordinator, accepted: bool)
    requires Valid(s) && Awaiting(s, DestroyKind) && s.createSessionOnDestroy
    ensures var t := Apply(s, DestroyDone(true, false, accepted));
      && !t.createSessionOnDestroy
      && t.calls == s.calls + [CreateRequest(BuildSettings(s.lastNumPublicConnections, s.lastMatchType, s.subsystem))]
      && t.events == s.events + (if accepted then [] else [Created(false)]) + [Destroyed(true)]
      && (accepted ==> Awaiting(t, CreateKind))
  {
    assert s.interfaceValid;
  }

  /** Every destroy completion ends by broadcasting its own outcome, exactly
      once unless the replayed create met a session again and its destroy was
      rejected; a failed completion keeps the deferred create pending and
      issues nothing. */
  lemma DestroyCompletionReportsOnce(s: Coordinator, success: bool, sessionExists: bool, accepted: bool)
    requires Valid(s) && Awaiting(s, DestroyKind)
    ensures var t := Apply(s, DestroyDone(success, sessionExists, accepted));
      && |t.events| > |s.events|
      && t.events[..|s.events|] == s.events
      && t.events[|t.events| - 1] == Destroyed(success)
      && (!(success && s.createSessionOnDestroy && sessionExists && !accepted) ==>
            forall i :: |s.events| <= i < |t.events| - 1 ==> !t.events[i].Destroyed?)
      && (!success ==> t.createSessionOnDestroy == s.createSessionOnDestroy && t.calls == s.calls)
      && (!success || !s.createSessionOnDestroy ==> t.registered == s.registered - {s.handles[DestroyKind]})
  {
    assert s.interfaceValid;
  }

  /** Destroy-then-recreate over a run: after any number of creates that
      met an existing session, the last of them accepted, a successful
      destroy completion issues a create with the LAST requested intent,
      and every call before it since the start of the run was a destroy. */
  lemma LastRequestedIntentIsRecreated(s: Coordinator, ops: seq<Op>, accepted: bool)
    requires Valid(s) && s.interfaceValid && |ops| > 0
    requires forall i :: 0 <= i < |ops| ==> ops[i].CallCreate? && ops[i].sessionExists
    requires ops[|ops| - 1].accepted
    ensures var t := Run(s, ops + [DestroyDone(true, false, accepted)]);
      var last := ops[|ops| - 1];
      && |t.calls| > |s.calls| && |t.events| > 0
      && t.calls[|t.calls| - 1] == CreateRequest(BuildSettings(last.numPublicConnections, last.matchType, s.subsystem))
      && (forall i :: |s.calls| <= i < |t.calls| - 1 ==> t.calls[i] == DestroyRequest)
      && t.events[|t.events| - 1] == Destroyed(true)
      && !t.createSessionOnDestroy
  {
    var n := |ops|;
    var u := Run(s, ops);
    RepeatedCreatesKeepLastIntent(s, ops);
    RunPreservesValid(s, ops);
    // the last create's destroy was accepted, so a destroy delegate is awaited
    assert ops == ops[..n - 1] + [ops[n - 1]];
    RunAppend(s, ops[..n - 1], ops[n - 1]);
    var v := Run(s, ops[..n - 1]);
    RunOnlyAppends(s, ops[..n - 1]);
    ApplyOnlyAppends(v, ops[n - 1]);
    assert u == Apply(v, ops[n - 1]);
    assert Awaiting(u, DestroyKind);
    RunAppend(s, ops, DestroyDone(true, false, accepted));
    DestroyCompletionRecreates(u, accepted);
  }

  // ---------------------------------------------------------------------
  // FindSessions

  /** A find while the last search is in progress changes nothing: no
      delegate, no backend call, no outcome. */
  lemma SearchGuardIsNoOp(s: Coordinator, maxSearchResults: int, accepted: bool)
    requires SearchInProgress(s)
    ensures FindSessions(s, maxSearchResults, accepted) == s
  {
  }

  /** An issued find carries the LAN flag and the result cap; the new search
      is in progress exactly when the backend accepted it. */
  lemma FindRequestCarriesQuery(s: Coordinator, maxSearchResults: int, accepted: bool)
    requires s.interfaceValid && !SearchInProgress(s)
    ensures var t := FindSessions(s, maxSearchResults, accepted);
      && t.calls == s.calls + [FindRequest(t.lastSessionSearch.value.query)]
      && t.lastSessionSearch.Some?
      && t.lastSessionSearch.value.query.isLanQuery == IsLANMatch(s.subsystem)
      && t.lastSessionSearch.value.query.maxSearchResults == maxSearchResults
      && t.lastSessionSearch.value.query.presenceOnly
      && (SearchInProgress(t) <==> accepted)
  {
  }

  /** The find completion broadcasts the search's result list with the
      signalled flag, and the search is then no longer in progress. */
  lemma FindCompletionReportsResults(s: Coordinator, success: bool, results: seq<SearchResult>)
    requires Valid(s) && Awaiting(s, FindKind)
    ensures var t := Apply(s, FindDone(success, results));
      && t.events == s.events + [Found(results, success)]
      && t.lastSessionSearch.Some? && t.lastSessionSearch.value.results == results
      && !SearchInProgress(t)
  {
  }

  /** t leaves the search of s alone: the same search object, and no find
      request issued and no search outcome reported since s. */
  ghost predicate LeavesSearchAlone(s: Coordinator, t: Coordinator)
    requires Extends(s, t)
  {
    && t.lastSessionSearch == s.lastSessionSearch
    && (forall i :: |s.calls| <= i < |t.calls| ==> !t.calls[i].FindRequest?)
    && (forall i :: |s.events| <= i < |t.events| ==> !t.events[i].Found?)
  }

  /** One input other than a find completion keeps an in-progress search
      untouched and issues no find and reports no search outcome. */
  lemma ApplyKeepsSearchInProgress(s: Coordinator, op: Op)
    requires SearchInProgress(s) && !op.FindDone?
    ensures Extends(s, Apply(s, op)) && LeavesSearchAlone(s, Apply(s, op))
  {
    ApplyOnlyAppends(s, op);
    if op.IsCall() {
      CallKeepsSearchInProgress(s, op);
    } else {
      CompletionKeepsSearchInProgress(s, op);
    }
  }

  lemma CallKeepsSearchInProgress(s: Coordinator, op: Op)
    requires SearchInProgress(s) && op.IsCall()
    ensures Extends(s, Apply(s, op)) && LeavesSearchAlone(s, Apply(s, op))
  {
    CallOpExtends(s, op);
    match op
    case CallCreate(n, m, e, a) =>
      if s.interfaceValid && e {
        var pending := s.(createSessionOnDestroy := true, lastNumPublicConnections := n, lastMatchType := m);
        assert Apply(s, op) == DestroySession(pending, a);
      }
    case _ =>
  }

  lemma CompletionKeepsSearchInProgress(s: Coordinator, op: Op)
    requires SearchInProgress(s) && !op.IsCall() && !op.FindDone?
    ensures Extends(s, Apply(s, op)) && LeavesSearchAlone(s, Apply(s, op))
  {
    CompletionOpExtends(s, op);
    match op
    case DestroyDone(ok, e, a) => DestroyCompletionKeepsSearchInProgress(s, ok, e, a);
    case _ =>
  }

  lemma DestroyCompletionKeepsSearchInProgress(s: Coordinator, success: bool, sessionExists: bool, accepted: bool)
    requires SearchInProgress(s)
    ensures var t := OnDestroySessionComplete(s, success, sessionExists, accepted);
      Extends(s, t) && LeavesSearchAlone(s, t)
  {
    OnDestroySessionCompleteExtends(s, success, sessionExists, accepted);
    var cleared := if s.interfaceValid then Clear(s, DestroyKind) else s;
    if success && cleared.createSessionOnDestroy {
      var pending := cleared.(createSessionOnDestroy := false);
      CallKeepsSearchInProgress(pending, CallCreate(cleared.lastNumPublicConnections, cleared.lastMatchType, sessionExists, accepted));
    }
  }

  /** No overlapping searches: until a find completion arrives, however
      many finds are requested, none reaches the backend and none reports. */
  lemma {:induction false} NoOverlappingSearches(s: Coordinator, ops: seq<Op>)
    requires SearchInProgress(s)
    requires forall i :: 0 <= i < |ops| ==> !ops[i].FindDone?
    ensures var t := Run(s, ops);
      && t.lastSessionSearch == s.lastSessionSearch
      && |t.calls| >= |s.calls|
      && (forall i :: |s.calls| <= i < |t.calls| ==> !t.calls[i].FindRequest?)
      && |t.events| >= |s.events|
      && (forall i :: |s.events| <= i < |t.events| ==> !t.events[i].Found?)
    decreases |ops|
  {
    if ops != [] {
      var u := Apply(s, ops[0]);
      ApplyKeepsSearchInProgress(s, ops[0]);
      ApplyOnlyAppends(s, ops[0]);
      assert forall i :: 0 <= i < |ops[1..]| ==> ops[1..][i] == ops[i + 1];
      NoOverlappingSearches(u, ops[1..]);
      var t := Run(u, ops[1..]);
      RunOnlyAppends(u, ops[1..]);
      forall i | |s.calls| <= i < |t.calls|
        ensures !t.calls[i].FindRequest?
      {
        if i < |u.calls| {
          assert t.calls[i] == u.calls[i];
        }
      }
      forall i | |s.events| <= i < |t.events|
        ensures !t.events[i].Found?
      {
        if i < |u.events| {
          assert t.events[i] == u.events[i];
        }
      }
    }
  }

  // ---------------------------------------------------------------------
  // JoinSession

  /** The join completion reports the resolved address, and the result is
      UnknownError exactly when that address is empty or the backend itself
      signalled UnknownError; with an address, the signalled code. */
  lemma JoinCompletionReport(s: Coordinator, result: JoinResult, resolved: string)
    requires Valid(s) && Awaiting(s, JoinKind)
    ensures var t := Apply(s, JoinDone(result, resolved));
      && |t.events| == |s.events| + 1
      && t.events[..|s.events|] == s.events
      && var e := t.events[|s.events|];
      && e.Joined?
      && e.address == resolved
      && (e.result == UnknownError <==> resolved == "" || result == UnknownError)
      && (resolved != "" ==> e.result == result)
  {
    assert s.interfaceValid;
  }

  // ---------------------------------------------------------------------
  // LAN detection

  /** Create settings and search queries agree on LAN mode, which holds
      exactly when there is no online subsystem or it is the null one. */
  lemma LanModeFromSubsystem(subsystem: Option<OnlineSubsystem>, numPublicConnections: int, matchType: string, maxSearchResults: int)
    ensures BuildSettings(numPublicConnections, matchType, subsystem).isLANMatch
            == BuildQuery(maxSearchResults, subsystem).isLanQuery
            == (subsystem.None? || EqualsIgnoreCase(subsystem.value.name, "NULL"))
  {
  }

  /** The null subsystem is recognised whatever the case of its name; any
      other subsystem hosts and searches online. */
  lemma NullNameInAnyCaseIsLan(hasSessionInterface: bool)
    ensures IsLANMatch(Some(OnlineSubsystem("Null", hasSessionInterface)))
    ensures IsLANMatch(Some(OnlineSubsystem("null", hasSessionInterface)))
    ensures !IsLANMatch(Some(OnlineSubsystem("Steam", hasSessionInterface)))
  {
  }

  // ---------------------------------------------------------------------
  // Scenarios

  /** A LAN host with no session: one create request with four public
      connections, LAN mode and the FreeForAll attribute; its successful
      completion reports success. */
  lemma LanHostScenario()
    ensures var t := Run(Initial(Some(OnlineSubsystem("NULL", true))),
                         [CallCreate(4, "FreeForAll", false, true), CreateDone(true)]);
      && t.calls == [CreateRequest(SessionSettings(4, true, true, true, true, true, map[MatchTypeAttributeKey := "FreeForAll"]))]
      && t.events == [Created(true)]
      && t.registered == {}
  {
    var s0 := Initial(Some(OnlineSubsystem("NULL", true)));
    var s1 := Apply(s0, CallCreate(4, "FreeForAll", false, true));
    assert Run(s0, [CallCreate(4, "FreeForAll", false, true), CreateDone(true)])
        == Run(s1, [CreateDone(true)]);
    assert Run(s1, [CreateDone(true)]) == Run(Apply(s1, CreateDone(true)), []);
  }

  /** Recreating over an existing session: the destroy outcome is reported
      before the replayed create's outcome, and the old session's destroy is
      requested before the new session's create. */
  lemma RecreateOrderScenario(s: Coordinator, numPublicConnections: int, matchType: string)
    requires Valid(s) && s.interfaceValid
    ensures var s1 := Apply(s, CallCreate(numPublicConnections, matchType, true, true));
      var s2 := Apply(s1, DestroyDone(true, false, true));
      var t := Apply(s2, CreateDone(true));
      && t.events == s.events + [Destroyed(true), Created(true)]
      && t.calls == s.calls + [DestroyRequest, CreateRequest(BuildSettings(numPublicConnections, matchType, s.subsystem))]
  {
    var s1 := Apply(s, CallCreate(numPublicConnections, matchType, true, true));
    CreateWithExistingSessionDefers(s, numPublicConnections, matchType, true);
    AcceptedCallAwaitsCompletion(s, CallCreate(numPublicConnections, matchType, true, true));
    ApplyPreservesValid(s, CallCreate(numPublicConnections, matchType, true, true));
    DestroyCompletionRecreates(s1, true);
  }

  /** Overlapping destroys: a client destroy is accepted, then a create meets
      a session and its destroy is rejected. That rejection clears only the
      second destroy delegate, so the first one stays live; when it fires
      successfully the saved create is replayed before `Destroyed(true)`. */
  lemma LeakedDestroyDelegateReplaysCreate(s: Coordinator, numPublicConnections: int, matchType: string)
    requires Valid(s) && s.interfaceValid
    ensures var s1 := Apply(s, CallDestroy(true));
      var s2 := Apply(s1, CallCreate(numPublicConnections, matchType, true, false));
      var t := Apply(s2, DestroyDone(true, false, true));
      && s2.handles[DestroyKind] !in s2.registered
      && Awaiting(s2, DestroyKind)
      && t.calls == s.calls + [DestroyRequest, DestroyRequest, CreateRequest(BuildSettings(numPublicConnections, matchType, s.subsystem))]
      && t.events == s.events + [Destroyed(false), Destroyed(true)]
      && !t.createSessionOnDestroy
  {
    var s1 := Apply(s, CallDestroy(true));
    var first := DelegateHandle(DestroyKind, s.nextHandleId);
    assert first in s1.registered;
    var pending := s1.(createSessionOnDestroy := true, lastNumPublicConnections := numPublicConnections, lastMatchType := matchType);
    var s2 := Apply(s1, CallCreate(numPublicConnections, matchType, true, false));
    assert s2 == DestroySession(pending, false);
    assert first in s2.registered;
    assert Awaiting(s2, DestroyKind);
    DestroyCompletionRecreates(s2, true);
  }
}
