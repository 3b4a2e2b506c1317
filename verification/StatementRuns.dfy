/** Planned statements, their executions and the lineage run ids that tie them together. */
module StatementRuns {
  import opened Results
  import opened Sequences

  type RunId = nat
  type Handle = nat
  type SessionId = nat
  type Plan = nat

  /** A parent facet as a client may send it, or as an execution derives it from its planning run. */
  datatype ParentRun = ClientRun(runId: string) | PlanningRun(run: RunId)
  datatype Parent = Parent(run: ParentRun, namespace: string, name: string, root: Option<Root>)
  datatype Root = Root(run: ParentRun, namespace: string, name: string)

  /** The lineage context of one request. */
  datatype Context = Context(
    runId: Option<RunId>, jobName: Option<string>, jobNamespace: Option<string>,
    sql: Option<string>, parent: Option<Parent>)

  const FALLBACK_NAME: string := "datafusion_query"

  /** `execution_context`: a fresh run whose parent is the planning run and whose root is the planning
      context's own parent. */
  function ExecutionContext(planning: Context, configNamespace: string, run: RunId): Context {
    if planning.runId.None? then planning.(runId := Some(run))
    else
      var namespace := if planning.jobNamespace.Some? then planning.jobNamespace.value else configNamespace;
      var name := if planning.jobName.Some? then planning.jobName.value else FALLBACK_NAME;
      var root := if planning.parent.Some?
                  then Some(Root(planning.parent.value.run, planning.parent.value.namespace,
                                 planning.parent.value.name))
                  else None;
      planning.(runId := Some(run), parent := Some(Parent(PlanningRun(planning.runId.value), namespace, name, root)))
  }

  // ---------------------------------------------------------------- the server's statements

  datatype Stored = Stored(plan: Plan, lineage: Context)

  /** What happened, for the record: plannings and executions in order. */
  datatype Fact =
    | Planned(session: SessionId, handle: Handle, context: Context)
    | Executed(session: SessionId, handle: Handle, plan: Plan, context: Context)

  datatype Server = Server(
    statements: map<SessionId, map<Handle, Stored>>,
    nextId: nat,                 // every id below has been handed out
    history: seq<Fact>)

  /** Requests arrive with the lineage their headers give; `planning` has no run id yet. */
  datatype Request =
    | PlanStatement(session: SessionId, headers: Context, plan: Plan)     // get_flight_info_statement
    | Prepare(session: SessionId, headers: Context, plan: Plan)           // create_prepared_statement
    | GetStatement(session: SessionId, handle: Handle)                    // do_get_statement
    | GetPrepared(session: SessionId, handle: Handle)                     // do_get_prepared_statement
    | Close(session: SessionId, handle: Handle)                           // close_prepared_statement
    | SweepStatements(session: SessionId, stale: set<Handle>)
    | Evict(session: SessionId)

  function Of(s: Server, session: SessionId): map<Handle, Stored> {
    if session in s.statements then s.statements[session] else map[]
  }

  function Resolved(s: Server, session: SessionId, handle: Handle): Option<Stored> {
    if handle in Of(s, session) then Some(Of(s, session)[handle]) else None
  }

  function Store(s: Server, session: SessionId, headers: Context, plan: Plan): Server {
    // one fresh id for the run, one for the handle
    var context := headers.(runId := Some(s.nextId));
    var handle := s.nextId + 1;
    Server(s.statements[session := Of(s, session)[handle := Stored(plan, context)]],
           s.nextId + 2,
           s.history + [Planned(session, handle, context)])
  }

  function Execute(s: Server, configNamespace: string, session: SessionId, handle: Handle, st: Stored): Server {
    s.(nextId := s.nextId + 1,
       history := s.history + [Executed(session, handle, st.plan,
         ExecutionContext(st.lineage, configNamespace, s.nextId))])
  }

  function Remove(s: Server, session: SessionId, handles: set<Handle>): Server {
    s.(statements := s.statements[session := Of(s, session) - handles])
  }

  /** One request served to its end. An unknown handle is an error and changes nothing. */
  function Serve(s: Server, configNamespace: string, r: Request): Server {
    match r
    case PlanStatement(session, headers, plan) => Store(s, session, headers, plan)
    case Prepare(session, headers, plan) => Store(s, session, headers, plan)
    case GetStatement(session, handle) =>
      var st := Resolved(s, session, handle);
      if st.None? then s else Remove(Execute(s, configNamespace, session, handle, st.value), session, {handle})
    case GetPrepared(session, handle) =>
      var st := Resolved(s, session, handle);
      if st.None? then s else Execute(s, configNamespace, session, handle, st.value)
    case Close(session, handle) => Remove(s, session, {handle})
    case SweepStatements(session, stale) => Remove(s, session, stale)
    case Evict(session) => s.(statements := s.statements - {session})
  }

  function Initial(): Server {
    Server(map[], 0, [])
  }

  function Run(configNamespace: string, requests: seq<Request>): Server {
    if requests == [] then Initial()
    else Serve(Run(configNamespace, requests[..|requests| - 1]), configNamespace, requests[|requests| - 1])
  }

  // ---------------------------------------------------------------- what every run keeps

  /** The planning an execution or a stored statement goes back to. */
  ghost predicate WasPlanned(s: Server, session: SessionId, handle: Handle, context: Context) {
    Planned(session, handle, context) in s.history && context.runId.Some?
  }

  ghost predicate DerivesFrom(configNamespace: string, f: Fact, planning: Context)
    requires f.Executed?
  {
    f.context.runId.Some? && f.context == ExecutionContext(planning, configNamespace, f.context.runId.value)
  }

  /** The ids an entry of the history took. */
  ghost function IdsOf(f: Fact): set<nat> {
    (if f.context.runId.Some? then {f.context.runId.value} else {}) + if f.Planned? then {f.handle} else {}
  }

  ghost predicate Inv(configNamespace: string, s: Server) {
    && (forall session, handle :: Resolved(s, session, handle).Some? ==>
          WasPlanned(s, session, handle, Resolved(s, session, handle).value.lineage))
    && (forall i :: 0 <= i < |s.history| ==> s.history[i].context.runId.Some?)
    && (forall i, x :: 0 <= i < |s.history| && x in IdsOf(s.history[i]) ==> x < s.nextId)
    && (forall i, j :: 0 <= i < j < |s.history| ==> IdsOf(s.history[i]) !! IdsOf(s.history[j]))
    && (forall i :: 0 <= i < |s.history| && s.history[i].Planned? ==>
      s.history[i].context.runId.value != s.history[i].handle)
    && (forall i :: 0 <= i < |s.history| && s.history[i].Executed? ==>
          exists planning :: WasPlanned(s, s.history[i].session, s.history[i].handle, planning) &&
                             DerivesFrom(configNamespace, s.history[i], planning))
  }

  lemma StoreKeeps(c: string, s: Server, session: SessionId, headers: Context, plan: Plan)
    requires Inv(c, s)
    ensures Inv(c, Store(s, session, headers, plan))
  {
    var t := Store(s, session, headers, plan);
    var f := t.history[|s.history|];
    forall k, h | Resolved(t, k, h).Some? ensures WasPlanned(t, k, h, Resolved(t, k, h).value.lineage) {
      if k == session && h == s.nextId + 1 {
        assert f in t.history;
      } else {
        assert Resolved(s, k, h) == Resolved(t, k, h);
        KeptPlanning(s, t, k, h, Resolved(s, k, h).value.lineage);
      }
    }
    HistoryGrows(c, s, t, f);
  }

  lemma KeptPlanning(s: Server, t: Server, session: SessionId, handle: Handle, context: Context)
    requires WasPlanned(s, session, handle, context) && s.history <= t.history
    ensures WasPlanned(t, session, handle, context)
  {
  }

  /** Appending an entry with ids never used before keeps everything said of the history. */
  lemma HistoryGrows(c: string, s: Server, t: Server, f: Fact)
    requires Inv(c, s) && t.history == s.history + [f] && s.nextId <= t.nextId && f.context.runId.Some?
    requires forall x :: x in IdsOf(f) ==> s.nextId <= x < t.nextId
    requires f.Planned? ==> f.context.runId.value != f.handle
    requires f.Executed? ==>
      exists planning :: WasPlanned(s, f.session, f.handle, planning) && DerivesFrom(c, f, planning)
    ensures forall i :: 0 <= i < |t.history| ==> t.history[i].context.runId.Some?
    ensures forall i, x :: 0 <= i < |t.history| && x in IdsOf(t.history[i]) ==> x < t.nextId
    ensures forall i, j :: 0 <= i < j < |t.history| ==> IdsOf(t.history[i]) !! IdsOf(t.history[j])
    ensures forall i :: 0 <= i < |t.history| && t.history[i].Planned? ==>
      t.history[i].context.runId.value != t.history[i].handle
    ensures forall i :: 0 <= i < |t.history| && t.history[i].Executed? ==>
      exists planning :: WasPlanned(t, t.history[i].session, t.history[i].handle, planning) &&
                         DerivesFrom(c, t.history[i], planning)
  {
  }

  lemma ExecuteKeeps(c: string, s: Server, session: SessionId, handle: Handle)
    requires Inv(c, s) && Resolved(s, session, handle).Some?
    ensures Inv(c, Execute(s, c, session, handle, Resolved(s, session, handle).value))
  {
    var st := Resolved(s, session, handle).value;
    var t := Execute(s, c, session, handle, st);
    var f := t.history[|s.history|];
    assert WasPlanned(s, session, handle, st.lineage) && DerivesFrom(c, f, st.lineage);
    HistoryGrows(c, s, t, f);
    forall k, h | Resolved(t, k, h).Some? ensures WasPlanned(t, k, h, Resolved(t, k, h).value.lineage) {
      assert Resolved(s, k, h) == Resolved(t, k, h);
      KeptPlanning(s, t, k, h, Resolved(s, k, h).value.lineage);
    }
  }

  /** Dropping statements keeps the invariant. */
  lemma ForgetKeeps(c: string, s: Server, t: Server)
    requires Inv(c, s) && t.history == s.history && t.nextId == s.nextId
    requires forall k, h :: Resolved(t, k, h).Some? ==> Resolved(t, k, h) == Resolved(s, k, h)
    ensures Inv(c, t)
  {
  }

  lemma ServeKeeps(c: string, s: Server, r: Request)
    requires Inv(c, s)
    ensures Inv(c, Serve(s, c, r))
  {
    match r {
      case PlanStatement(session, headers, plan) => StoreKeeps(c, s, session, headers, plan);
      case Prepare(session, headers, plan) => StoreKeeps(c, s, session, headers, plan);
      case GetStatement(session, handle) =>
        if Resolved(s, session, handle).Some? {
          ExecuteKeeps(c, s, session, handle);
          var t := Execute(s, c, session, handle, Resolved(s, session, handle).value);
          ForgetKeeps(c, t, Remove(t, session, {handle}));
        }
      case GetPrepared(session, handle) =>
        if Resolved(s, session, handle).Some? { ExecuteKeeps(c, s, session, handle); }
      case Close(session, handle) => ForgetKeeps(c, s, Serve(s, c, r));
      case SweepStatements(session, stale) => ForgetKeeps(c, s, Serve(s, c, r));
      case Evict(session) => ForgetKeeps(c, s, Serve(s, c, r));
    }
  }

  lemma {:induction false} RunKeeps(c: string, requests: seq<Request>)
    ensures Inv(c, Run(c, requests))
  {
    if requests != [] {
      RunKeeps(c, requests[..|requests| - 1]);
      ServeKeeps(c, Run(c, requests[..|requests| - 1]), requests[|requests| - 1]);
    }
  }

  /** Over every run: an execution's run id is its own, its parent is the planning run of the
      statement behind the handle, under the same job and in the session that planned it, named with
      that planning's job (or the configured namespace and the fallback name), and its root is the
      planning context's own parent. */
  lemma ExecutionIdentity(c: string, requests: seq<Request>, i: nat)
    requires i < |Run(c, requests).history| && Run(c, requests).history[i].Executed?
    ensures var h := Run(c, requests).history; var f := h[i];
      && f.context.runId.Some?
      && (forall j :: 0 <= j < |h| && j != i ==> h[j].context.runId != f.context.runId)
      && exists planning ::
           && Planned(f.session, f.handle, planning) in h && planning.runId.Some?
           && f.context.jobName == planning.jobName && f.context.jobNamespace == planning.jobNamespace
           && f.context.sql == planning.sql
           && f.context.parent.Some? && f.context.parent.value.run == PlanningRun(planning.runId.value)
           && f.context.parent.value.namespace
             == (if planning.jobNamespace.Some? then planning.jobNamespace.value else c)
           && f.context.parent.value.name == (if planning.jobName.Some? then planning.jobName.value else FALLBACK_NAME)
           && f.context.parent.value.root == (if planning.parent.None? then None else
                Some(Root(planning.parent.value.run, planning.parent.value.namespace, planning.parent.value.name)))
  {
    var s := Run(c, requests);
    RunKeeps(c, requests);
    var f := s.history[i];
    var planning :| WasPlanned(s, f.session, f.handle, planning) && DerivesFrom(c, f, planning);
    forall j | 0 <= j < |s.history| && j != i ensures s.history[j].context.runId != f.context.runId {
      assert IdsOf(s.history[j]) !! IdsOf(f);
      assert f.context.runId.value in IdsOf(f);
    }
  }

  /** A handle names one statement of one session: whichever session resolves it is the one that
      planned it. */
  lemma HandleBelongsToOneSession(c: string, requests: seq<Request>, a: SessionId, b: SessionId, handle: Handle)
    requires Resolved(Run(c, requests), a, handle).Some? && Resolved(Run(c, requests), b, handle).Some?
    ensures a == b
  {
    RunKeeps(c, requests);
    PlannedIn(c, Run(c, requests), a, handle, b);
  }

  lemma PlannedIn(c: string, s: Server, a: SessionId, handle: Handle, b: SessionId)
    requires Inv(c, s) && Resolved(s, a, handle).Some?
    ensures handle < s.nextId
    ensures Resolved(s, b, handle).Some? ==> a == b
  {
    var i := PlanningOf(c, s, a, handle);
    if Resolved(s, b, handle).Some? {
      var j := PlanningOf(c, s, b, handle);
      assert handle in IdsOf(s.history[i]) && handle in IdsOf(s.history[j]);
    }
  }

  lemma PlanningOf(c: string, s: Server, session: SessionId, handle: Handle) returns (i: nat)
    requires Inv(c, s) && Resolved(s, session, handle).Some?
    ensures i < |s.history| && s.history[i].Planned?
    ensures s.history[i].session == session && s.history[i].handle == handle && handle in IdsOf(s.history[i])
  {
    var x := Resolved(s, session, handle).value.lineage;
    assert WasPlanned(s, session, handle, x);
    i :| 0 <= i < |s.history| && s.history[i] == Planned(session, handle, x);
  }

  /** A handle that has been handed out resolves nowhere. */
  ghost predicate Gone(s: Server, handle: Handle) {
    handle < s.nextId && forall session :: Resolved(s, session, handle).None?
  }

  lemma GoneStays(c: string, s: Server, r: Request, handle: Handle)
    requires Gone(s, handle)
    ensures Gone(Serve(s, c, r), handle)
  {
    var t := Serve(s, c, r);
    forall session ensures Resolved(t, session, handle).None? {
      assert Resolved(s, session, handle).None?;
    }
  }

  /** Fetching a statement is the end of its handle, whether it was planned or prepared: no later
      request of any run resolves it, so it is never executed again. */
  lemma {:induction false} FetchedOnce(c: string, before: seq<Request>, session: SessionId, handle: Handle,
                                       after: seq<Request>)
    requires Resolved(Run(c, before), session, handle).Some?
    ensures Gone(Run(c, before + [GetStatement(session, handle)] + after), handle)
    decreases |after|
  {
    var fetch := GetStatement(session, handle);
    var all := before + [fetch] + after;
    RunKeeps(c, before);
    if after == [] {
      assert all == before + [fetch] && all[..|all| - 1] == before;
      FetchEnds(c, Run(c, before), session, handle);
    } else {
      var init, last := after[..|after| - 1], after[|after| - 1];
      assert all[..|all| - 1] == before + [fetch] + init;
      FetchedOnce(c, before, session, handle, init);
      GoneStays(c, Run(c, all[..|all| - 1]), last, handle);
    }
  }

  lemma FetchEnds(c: string, s: Server, session: SessionId, handle: Handle)
    requires Inv(c, s) && Resolved(s, session, handle).Some?
    ensures Gone(Serve(s, c, GetStatement(session, handle)), handle)
  {
    var t := Serve(s, c, GetStatement(session, handle));
    forall k ensures Resolved(t, k, handle).None? {
      PlannedIn(c, s, session, handle, k);
    }
    PlannedIn(c, s, session, handle, session);
  }

  /** The requests that end a statement: fetching it as a plain one, closing it, sweeping it, evicting
      its session. */
  predicate Ends(r: Request, session: SessionId, handle: Handle) {
    || r == GetStatement(session, handle) || r == Close(session, handle) || r == Evict(session)
    || (r.SweepStatements? && r.session == session && handle in r.stale)
  }

  /** What a handle has executed: each time the plan, and the context but for its run id. */
  function ExecutionsOf(history: seq<Fact>, session: SessionId, handle: Handle): seq<(Plan, Context)> {
    if history == [] then []
    else
      var f := history[|history| - 1];
      ExecutionsOf(history[..|history| - 1], session, handle) +
      if f.Executed? && f.session == session && f.handle == handle then [(f.plan, f.context.(runId := None))] else []
  }

  function TimesFetched(requests: seq<Request>, session: SessionId, handle: Handle): nat {
    if requests == [] then 0
    else
      TimesFetched(requests[..|requests| - 1], session, handle) +
      if requests[|requests| - 1] == GetPrepared(session, handle) then 1 else 0
  }

  /** One execution of a stored statement, as `ExecutionsOf` lists it. */
  function Again(c: string, st: Stored): (Plan, Context) {
    (st.plan, ExecutionContext(st.lineage, c, 0).(runId := None))
  }

  lemma OneMoreFact(s: seq<Fact>, f: Fact, session: SessionId, handle: Handle)
    ensures ExecutionsOf(s + [f], session, handle) == ExecutionsOf(s, session, handle) +
      if f.Executed? && f.session == session && f.handle == handle then [(f.plan, f.context.(runId := None))] else []
  {
    assert (s + [f])[..|s|] == s;
  }

  lemma ExecuteRecords(c: string, s: Server, session: SessionId, handle: Handle, st: Stored, at: SessionId, h: Handle)
    ensures ExecutionsOf(Execute(s, c, session, handle, st).history, at, h)
      == ExecutionsOf(s.history, at, h) + if session == at && handle == h then [Again(c, st)] else []
  {
    OneMoreFact(s.history, Executed(session, handle, st.plan, ExecutionContext(st.lineage, c, s.nextId)), at, h);
  }

  lemma PlanRecords(s: Server, at: SessionId, headers: Context, plan: Plan, session: SessionId, handle: Handle)
    ensures ExecutionsOf(Store(s, at, headers, plan).history, session, handle)
      == ExecutionsOf(s.history, session, handle) + []
  {
    OneMoreFact(s.history, Planned(at, s.nextId + 1, headers.(runId := Some(s.nextId))), session, handle);
  }

  lemma RequestRecords(c: string, s: Server, r: Request, session: SessionId, handle: Handle)
    requires Resolved(s, session, handle).Some? && r != GetStatement(session, handle)
    ensures ExecutionsOf(Serve(s, c, r).history, session, handle) == ExecutionsOf(s.history, session, handle) +
      if r == GetPrepared(session, handle) then [Again(c, Resolved(s, session, handle).value)] else []
  {
    AppendNone(ExecutionsOf(s.history, session, handle));
    match r {
      case PlanStatement(at, headers, plan) => PlanRecords(s, at, headers, plan, session, handle);
      case Prepare(at, headers, plan) => PlanRecords(s, at, headers, plan, session, handle);
      case GetStatement(at, h) => FetchRecords(c, s, at, h, session, handle);
      case GetPrepared(at, h) => FetchRecords(c, s, at, h, session, handle);
      case _ =>
    }
  }

  lemma FetchRecords(c: string, s: Server, at: SessionId, h: Handle, session: SessionId, handle: Handle)
    ensures Resolved(s, at, h).Some? ==> var st := Resolved(s, at, h).value;
      ExecutionsOf(Execute(s, c, at, h, st).history, session, handle)
      == ExecutionsOf(s.history, session, handle) + if at == session && h == handle then [Again(c, st)] else []
  {
    if Resolved(s, at, h).Some? { ExecuteRecords(c, s, at, h, Resolved(s, at, h).value, session, handle); }
  }

  lemma RequestKeepsPrepared(c: string, s: Server, session: SessionId, handle: Handle, r: Request)
    requires handle < s.nextId && Resolved(s, session, handle).Some? && !Ends(r, session, handle)
    ensures Resolved(Serve(s, c, r), session, handle) == Resolved(s, session, handle)
  {
  }

  function Repeated<T>(x: T, n: nat): seq<T> {
    if n == 0 then [] else Repeated(x, n - 1) + [x]
  }

  /** Since `s` the statement has stayed as it was stored, and has been executed `n` times more. */
  predicate Stayed(c: string, s: Server, t: Server, session: SessionId, handle: Handle, n: nat) {
    && Resolved(s, session, handle).Some? && Resolved(t, session, handle) == Resolved(s, session, handle)
    && ExecutionsOf(t.history, session, handle)
       == ExecutionsOf(s.history, session, handle) + Repeated(Again(c, Resolved(s, session, handle).value), n)
  }

  lemma RequestKeepsStayed(c: string, s: Server, t: Server, session: SessionId, handle: Handle, n: nat, r: Request)
    requires Stayed(c, s, t, session, handle, n) && handle < t.nextId && !Ends(r, session, handle)
    ensures Stayed(c, s, Serve(t, c, r), session, handle, if r == GetPrepared(session, handle) then n + 1 else n)
  {
    var again, first := Again(c, Resolved(s, session, handle).value), ExecutionsOf(s.history, session, handle);
    RequestKeepsPrepared(c, t, session, handle, r);
    RequestRecords(c, t, r, session, handle);
    AppendAssoc(first, Repeated(again, n), [again]);
    AppendNone(first + Repeated(again, n));
  }

  lemma StaysOneMore(c: string, s: Server, requests: seq<Request>, session: SessionId, handle: Handle, n: nat,
                     r: Request)
    requires Stayed(c, s, Run(c, requests), session, handle, n) && !Ends(r, session, handle)
    ensures Stayed(c, s, Run(c, requests + [r]), session, handle,
                   if r == GetPrepared(session, handle) then n + 1 else n)
  {
    RunKeeps(c, requests);
    PlannedIn(c, Run(c, requests), session, handle, session);
    RequestKeepsStayed(c, s, Run(c, requests), session, handle, n, r);
    RunOneMore(c, requests, r);
  }

  lemma RunOneMore(c: string, requests: seq<Request>, r: Request)
    ensures Run(c, requests + [r]) == Serve(Run(c, requests), c, r)
  {
    assert (requests + [r])[..|requests|] == requests;
  }

  /** Over every run: until one of the requests that end it comes, a prepared statement stays as it was
      stored, and every fetch of it executes that plan once more under a context derived from that
      planning, and nothing else does. */
  lemma {:induction false} PreparedStays(c: string, before: seq<Request>, session: SessionId, handle: Handle,
                                         after: seq<Request>)
    requires Resolved(Run(c, before), session, handle).Some?
    requires forall r <- after :: !Ends(r, session, handle)
    ensures Stayed(c, Run(c, before), Run(c, before + after), session, handle, TimesFetched(after, session, handle))
    decreases |after|
  {
    if after == [] {
      AppendNone(before);
      AppendNone(ExecutionsOf(Run(c, before).history, session, handle));
    } else {
      var init, last := after[..|after| - 1], after[|after| - 1];
      assert last in after && forall r <- init :: r in after;
      PreparedStays(c, before, session, handle, init);
      StaysOneMore(c, Run(c, before), before + init, session, handle, TimesFetched(init, session, handle), last);
      SplitLast(after, init, last);
      AppendAssoc(before, init, [last]);
    }
  }

  class FlightService {
    const configNamespace: string
    var statements: map<SessionId, map<Handle, Stored>>
    var nextId: nat
    ghost var history: seq<Fact>

    ghost function State(): Server
      reads this
    {
      Server(statements, nextId, history)
    }

    ghost predicate Valid()
      reads this
    {
      Inv(configNamespace, State())
    }

    constructor (configNamespace: string)
      ensures Valid() && State() == Initial() && this.configNamespace == configNamespace
    {
      this.configNamespace := configNamespace;
      statements, nextId, history := map[], 0, [];
    }

    method FreshId() returns (id: nat)
      modifies this`nextId
      ensures id == old(nextId) && nextId == old(nextId) + 1
    {
      id, nextId := nextId, nextId + 1;
    }

    method GetFlightInfoStatement(session: SessionId, headers: Context, plan: Plan) returns (handle: Handle)
      requires Valid()
      modifies this
      ensures Valid() && State() == Serve(old(State()), configNamespace, PlanStatement(session, headers, plan))
      ensures Resolved(State(), session, handle).Some?
    {
      ghost var next := Store(State(), session, headers, plan);
      StoreKeeps(configNamespace, State(), session, headers, plan);
      var run := FreshId();
      var lineage := headers.(runId := Some(run));
      handle := FreshId();
      var mine := if session in statements then statements[session] else map[];
      statements := statements[session := mine[handle := Stored(plan, lineage)]];
      history := history + [Planned(session, handle, lineage)];
      assert State() == next;
    }

    method DoGetStatement(session: SessionId, handle: Handle) returns (executed: Option<Context>)
      requires Valid()
      modifies this
      ensures Valid() && State() == Serve(old(State()), configNamespace, GetStatement(session, handle))
      ensures executed.Some? <==> Resolved(old(State()), session, handle).Some?
      ensures executed.Some? ==>
        history[|history| - 1].context == executed.value && Resolved(State(), session, handle).None?
    {
      ServeKeeps(configNamespace, State(), GetStatement(session, handle));
      if session !in statements || handle !in statements[session] { return None; }
      var stored := statements[session][handle];
      var run := FreshId();
      var lineage := ExecutionContext(stored.lineage, configNamespace, run);
      history := history + [Executed(session, handle, stored.plan, lineage)];
      statements := statements[session := statements[session] - {handle}];
      executed := Some(lineage);
    }

    method DoGetPreparedStatement(session: SessionId, handle: Handle) returns (executed: Option<Context>)
      requires Valid()
      modifies this
      ensures Valid() && State() == Serve(old(State()), configNamespace, GetPrepared(session, handle))
      ensures executed.Some? <==> Resolved(old(State()), session, handle).Some?
      ensures executed.Some? ==> history[|history| - 1].context == executed.value && statements == old(statements)
    {
      ServeKeeps(configNamespace, State(), GetPrepared(session, handle));
      if session !in statements || handle !in statements[session] { return None; }
      var stored := statements[session][handle];
      var run := FreshId();
      var lineage := ExecutionContext(stored.lineage, configNamespace, run);
      history := history + [Executed(session, handle, stored.plan, lineage)];
      executed := Some(lineage);
    }

    method ClosePreparedStatement(session: SessionId, handle: Handle)
      requires Valid()
      modifies this`statements
      ensures Valid()
      ensures session in old(statements) ==> State() == Serve(old(State()), configNamespace, Close(session, handle))
      ensures session !in old(statements) ==> State() == old(State())
    {
      ServeKeeps(configNamespace, State(), Close(session, handle));
      if session in statements {
        statements := statements[session := statements[session] - {handle}];
      }
    }
  }
}
