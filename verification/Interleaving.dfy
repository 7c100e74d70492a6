/**
 * The same operations at the granularity of single storage calls. Any number of requests run side by side;
 * a schedule picks which one takes its next step. A call is atomic, and so is each `transaction` of the state
 * machine; everything a request remembers between its calls is a snapshot.
 *
 * Checks that do not read these tables (signatures, claims, capabilities) have the outcome the schedule gives
 * them. The schedule also supplies every clock reading, in any order.
 */
module Interleaving {
  import opened Common
  import opened Lifecycle
  import Grants
  import Identity
  import Pipeline
  import ReplayCache

  type Lifetimes = Identity.Lifetimes

  // ---------------------------------------------------------------- requests

  /** Where a registration is: the call it makes next. */
  datatype Registration =
    | CheckHost
    | CreateAgent
    | ActivateNew(id: nat)
    | StampNew(id: nat)
    | Registered(id: nat)
    | NotRegistered

  datatype Reactivation =
    | FindAgentRow
    | ActivateAgain(absolute: Option<int>)
    | StampAgain(absolute: Option<int>)
    | Reactivated
    | NotReactivated

  /** `todo` is what is left of the list of agents, `rows` their rows as read when the list was taken. */
  datatype HostRevocation =
    | FindHostRow
    | RevokeHostRow
    | ListAgents
    | Cascade(todo: seq<nat>, rows: seq<Agent>)
    | HostRevoked
    | HostNotRevoked(error: Error)

  datatype Revocation = FindOwn | RevokeRow | AgentRevoked | AgentNotRevoked

  /** An agent token in the pipeline: two reads in the signature stage, and all later checks on what they saw. */
  datatype Login =
    | ReadAgent
    | Verify(agent: Agent)
    | ReadHost(agent: Agent)
    | Claims(agent: Agent, host: Option<HostState>)
    | State(agent: Agent, host: Option<HostState>)
    | Capability(agent: Agent)
    | Accepted(agent: Agent)
    | Refused

  datatype Request =
    | Register(hostId: nat, registration: Registration)
    | Reactivate(hostId: nat, agentId: nat, reactivation: Reactivation)
    | RevokeHost(hostId: nat, hostRevocation: HostRevocation)
    | Revoke(hostId: nat, agentId: nat, revocation: Revocation)
    | LogIn(subject: nat, login: Login)

  /** Nothing done yet. */
  predicate Starting(r: Request) {
    match r
    case Register(_, at) => at == CheckHost
    case Reactivate(_, _, at) => at == FindAgentRow
    case RevokeHost(_, at) => at == FindHostRow
    case Revoke(_, _, at) => at == FindOwn
    case LogIn(_, at) => at == ReadAgent
  }

  // ---------------------------------------------------------------- one storage call

  function RegisterStep(l: Lifetimes, s: Store, hostId: nat, at: Registration, now: int): (Store, Registration) {
    match at
    case CheckHost =>
      (s, if hostId < |s.hosts| && s.hosts[hostId] == HostState.Active then CreateAgent else NotRegistered)
    case CreateAgent =>
      (s.(agents := s.agents + [Agent(hostId, AgentState.Pending, NOT_STAMPED)]), ActivateNew(|s.agents|))
    case ActivateNew(id) =>
      (match TransitionAgent(s, id, AgentState.Active)
       case Ok(after) => (after, StampNew(id))
       case Err(_) => (s, NotRegistered))
    case StampNew(id) =>
      if id < |s.agents|
      then (ApplyLifetimes(s, id, Identity.Stamped(l, now, Some(now + l.absolute * MILLIS))), Registered(id))
      else (s, NotRegistered)
    case _ => (s, at)
  }

  function ReactivateStep(l: Lifetimes, s: Store, hostId: nat, agentId: nat, at: Reactivation, now: int)
    : (Store, Reactivation)
  {
    match at
    case FindAgentRow =>
      if agentId >= |s.agents| || s.agents[agentId].hostId != hostId then (s, NotReactivated)
      else
        var absolute := s.agents[agentId].clocks.absolute;
        (s, if absolute.Some? && absolute.value <= now then NotReactivated else ActivateAgain(absolute))
    case ActivateAgain(absolute) =>
      (match TransitionAgent(s, agentId, AgentState.Active)
       case Ok(after) => (after, StampAgain(absolute))
       case Err(_) => (s, NotReactivated))
    case StampAgain(absolute) =>
      if agentId < |s.agents| then (ApplyLifetimes(s, agentId, Identity.Stamped(l, now, absolute)), Reactivated)
      else (s, NotReactivated)
    case _ => (s, at)
  }

  /** The host's agents, oldest first. */
  function Listed(agents: seq<Agent>, hostId: nat, from: nat): seq<nat>
    decreases |agents| - from
  {
    if from >= |agents| then []
    else (if agents[from].hostId == hostId then [from] else []) + Listed(agents, hostId, from + 1)
  }

  function RevokeHostStep(s: Store, hostId: nat, at: HostRevocation): (Store, HostRevocation) {
    match at
    case FindHostRow =>
      (s, if hostId >= |s.hosts| then HostNotRevoked(HostNotFound)
          else if s.hosts[hostId] == HostState.Revoked then HostRevoked
          else RevokeHostRow)
    case RevokeHostRow =>
      (match TransitionHost(s, hostId, HostState.Revoked)
       case Ok(after) => (after, ListAgents)
       case Err(e) => (s, HostNotRevoked(e)))
    case ListAgents => (s, Cascade(Listed(s.agents, hostId, 0), s.agents))
    case Cascade(todo, rows) =>
      if todo == [] then (s, HostRevoked)
      else if todo[0] >= |rows| || !Identity.Usable(rows[todo[0]].status) then (s, Cascade(todo[1..], rows))
      else
        (match TransitionAgent(s, todo[0], AgentState.Revoked)
         case Ok(after) => (after, Cascade(todo[1..], rows))
         case Err(e) => (s, HostNotRevoked(e)))
    case _ => (s, at)
  }

  function RevokeStep(s: Store, hostId: nat, agentId: nat, at: Revocation): (Store, Revocation) {
    match at
    case FindOwn =>
      (s, if agentId >= |s.agents| || s.agents[agentId].hostId != hostId then AgentNotRevoked
          else if s.agents[agentId].status == AgentState.Revoked then AgentRevoked
          else RevokeRow)
    case RevokeRow =>
      (match TransitionAgent(s, agentId, AgentState.Revoked)
       case Ok(after) => (after, AgentRevoked)
       case Err(_) => (s, AgentNotRevoked))
    case _ => (s, at)
  }

  /** `pass` is the outcome of a check that reads none of these tables. */
  function LogInStep(s: Store, subject: nat, at: Login, now: int, pass: bool): Login {
    match at
    case ReadAgent => if subject < |s.agents| then Verify(s.agents[subject]) else Refused
    case Verify(agent) => if pass then ReadHost(agent) else Refused
    case ReadHost(agent) => Claims(agent, FindHost(s, agent.hostId))
    case Claims(agent, host) => if pass then State(agent, host) else Refused
    case State(agent, host) =>
      if StateCheck(AgentToken, host, Some(agent), now).None? then Capability(agent) else Refused
    case Capability(agent) => if pass then Accepted(agent) else Refused
    case _ => at
  }

  // ---------------------------------------------------------------- schedules

  datatype System = System(store: Store, requests: seq<Request>)

  datatype Action =
    | Arrive(request: Request)
    | Call(index: nat, now: int, pass: bool)
    | AddHost(state: HostState)
    | SettleHost(host: nat, outcome: HostState)
    | Settle(agent: nat, to: AgentState)

  function CallOf(l: Lifetimes, s: Store, r: Request, now: int, pass: bool): (Store, Request) {
    match r
    case Register(hostId, at) =>
      var (after, next) := RegisterStep(l, s, hostId, at, now); (after, r.(registration := next))
    case Reactivate(hostId, agentId, at) =>
      var (after, next) := ReactivateStep(l, s, hostId, agentId, at, now); (after, r.(reactivation := next))
    case RevokeHost(hostId, at) =>
      var (after, next) := RevokeHostStep(s, hostId, at); (after, r.(hostRevocation := next))
    case Revoke(hostId, agentId, at) =>
      var (after, next) := RevokeStep(s, hostId, agentId, at); (after, r.(revocation := next))
    case LogIn(subject, at) => (s, r.(login := LogInStep(s, subject, at, now, pass)))
  }

  function Next(l: Lifetimes, y: System, action: Action): System {
    match action
    case Arrive(r) => if Starting(r) then y.(requests := y.requests + [r]) else y
    case Call(index, now, pass) =>
      if index >= |y.requests| then y
      else
        var (store, r) := CallOf(l, y.store, y.requests[index], now, pass);
        System(store, y.requests[index := r])
    case AddHost(state) => y.(store := y.store.(hosts := y.store.hosts + [state]))
    case SettleHost(host, outcome) =>
      if outcome == HostState.Revoked then y
      else y.(store := Identity.OrKeep(TransitionHost(y.store, host, outcome), y.store))
    case Settle(agent, to) =>
      if to == AgentState.Active || to == AgentState.Revoked then y
      else y.(store := Identity.OrKeep(TransitionAgent(y.store, agent, to), y.store))
  }

  /** The system after the first `n` actions of a schedule. */
  function After(l: Lifetimes, start: System, schedule: seq<Action>, n: nat): System
    requires n <= |schedule|
  {
    if n == 0 then start else Next(l, After(l, start, schedule, n - 1), schedule[n - 1])
  }

  // ---------------------------------------------------------------- undisturbed, a request is the atomic operation

  /** The next `k` calls of one request, with nobody else in between. */
  function Alone(l: Lifetimes, s: Store, r: Request, now: int, k: nat): (Store, Request)
    decreases k
  {
    if k == 0 then (s, r)
    else
      var (after, next) := CallOf(l, s, r, now, true);
      Alone(l, after, next, now, k - 1)
  }

  lemma AloneThree(l: Lifetimes, s: Store, r: Request, now: int)
    ensures var (s1, r1) := CallOf(l, s, r, now, true);
            var (s2, r2) := CallOf(l, s1, r1, now, true);
            Alone(l, s, r, now, 3) == CallOf(l, s2, r2, now, true)
  {
    var (s1, r1) := CallOf(l, s, r, now, true);
    var (s2, r2) := CallOf(l, s1, r1, now, true);
    assert Alone(l, s2, r2, now, 1) == CallOf(l, s2, r2, now, true);
    assert Alone(l, s1, r1, now, 2) == CallOf(l, s2, r2, now, true);
  }

  lemma RegisterAlone(l: Lifetimes, s: Store, hostId: nat, now: int)
    ensures var (after, r) := Alone(l, s, Register(hostId, CheckHost), now, 4);
            var outcome := Identity.Register(l, s, hostId, now);
            && after == Identity.OrKeep(outcome, s)
            && r == Register(hostId, if outcome.Ok? then Registered(|s.agents|) else NotRegistered)
  {
    var r0 := Register(hostId, CheckHost);
    var (s1, r1) := CallOf(l, s, r0, now, true);
    var (s2, r2) := CallOf(l, s1, r1, now, true);
    var (s3, r3) := CallOf(l, s2, r2, now, true);
    var (s4, r4) := CallOf(l, s3, r3, now, true);
    AloneThree(l, s1, r1, now);
    assert Alone(l, s, r0, now, 4) == (s4, r4);
    var outcome := Identity.Register(l, s, hostId, now);
    assert outcome.Ok? ==> s4.agents == outcome.value.agents;
  }

  lemma ReactivateAlone(l: Lifetimes, s: Store, hostId: nat, agentId: nat, now: int)
    ensures var (after, r) := Alone(l, s, Reactivate(hostId, agentId, FindAgentRow), now, 3);
            var outcome := Identity.Reactivate(l, s, hostId, agentId, now);
            && after == Identity.OrKeep(outcome, s)
            && r == Reactivate(hostId, agentId, if outcome.Ok? then Reactivated else NotReactivated)
  {
    var r0 := Reactivate(hostId, agentId, FindAgentRow);
    var (s1, r1) := CallOf(l, s, r0, now, true);
    var (s2, r2) := CallOf(l, s1, r1, now, true);
    var (s3, r3) := CallOf(l, s2, r2, now, true);
    AloneThree(l, s, r0, now);
    var outcome := Identity.Reactivate(l, s, hostId, agentId, now);
    assert outcome.Ok? ==> s3.agents == outcome.value.agents;
  }

  lemma RevokeAlone(l: Lifetimes, s: Store, hostId: nat, agentId: nat, now: int)
    ensures var (after, r) := Alone(l, s, Revoke(hostId, agentId, FindOwn), now, 2);
            var outcome := Identity.Revoke(s, hostId, agentId);
            && after == Identity.OrKeep(outcome, s)
            && r == Revoke(hostId, agentId, if outcome.Ok? then AgentRevoked else AgentNotRevoked)
  {
    var r0 := Revoke(hostId, agentId, FindOwn);
    var (s1, r1) := CallOf(l, s, r0, now, true);
    var (s2, r2) := CallOf(l, s1, r1, now, true);
    assert Alone(l, s1, r1, now, 1) == (s2, r2);
    assert Alone(l, s, r0, now, 2) == (s2, r2);
  }

  /** What the calls of a cascade make of the agents still on its list. */
  function CascadedBy(agents: seq<Agent>, hostId: nat, todo: seq<nat>): seq<Agent> {
    seq(|agents|, i requires 0 <= i < |agents| => if i in todo then Identity.Cascaded(agents[i], hostId) else agents[i])
  }

  lemma CascadedByRest(agents: seq<Agent>, hostId: nat, todo: seq<nat>)
    requires todo != [] && todo[0] < |agents| && todo[0] !in todo[1..]
    ensures CascadedBy(agents, hostId, todo) ==
            CascadedBy(agents[todo[0] := Identity.Cascaded(agents[todo[0]], hostId)], hostId, todo[1..])
  {
    forall i: nat | i < |agents| ensures i in todo <==> i == todo[0] || i in todo[1..] {
    }
  }

  /** The list holds each agent of the host once, from `from` on. */
  lemma {:induction false} ListedIsExact(agents: seq<Agent>, hostId: nat, from: nat)
    ensures var ids := Listed(agents, hostId, from);
            && (forall a :: a in ids <==> from <= a < |agents| && agents[a].hostId == hostId)
            && (forall i, k :: 0 <= i < k < |ids| ==> ids[i] != ids[k])
    decreases |agents| - from
  {
    if from < |agents| {
      ListedIsExact(agents, hostId, from + 1);
    }
  }

  lemma {:induction false} CascadeAlone(l: Lifetimes, s: Store, hostId: nat, rows: seq<Agent>, todo: seq<nat>, now: int)
    requires |rows| == |s.agents|
    requires forall a :: a in todo ==> a < |rows| && s.agents[a] == rows[a] && rows[a].hostId == hostId
    requires forall i, k :: 0 <= i < k < |todo| ==> todo[i] != todo[k]
    ensures Alone(l, s, RevokeHost(hostId, Cascade(todo, rows)), now, |todo| + 1) ==
            (s.(agents := CascadedBy(s.agents, hostId, todo)), RevokeHost(hostId, HostRevoked))
    decreases |todo|
  {
    var r := RevokeHost(hostId, Cascade(todo, rows));
    var (after, next) := CallOf(l, s, r, now, true);
    assert Alone(l, s, r, now, |todo| + 1) == Alone(l, after, next, now, |todo|);
    if todo == [] {
      assert CascadedBy(s.agents, hostId, todo) == s.agents;
    } else {
      assert todo[0] in todo;
      CascadeStep(l, s, hostId, rows, todo, now);
      forall a | a in todo[1..] ensures a in todo && a != todo[0] {
        var i :| 0 <= i < |todo[1..]| && todo[1..][i] == a;
        assert todo[i + 1] == a;
      }
      CascadeAlone(l, after, hostId, rows, todo[1..], now);
      CascadedByRest(s.agents, hostId, todo);
    }
  }

  lemma CascadeStep(l: Lifetimes, s: Store, hostId: nat, rows: seq<Agent>, todo: seq<nat>, now: int)
    requires todo != [] && todo[0] < |rows| == |s.agents|
    requires s.agents[todo[0]] == rows[todo[0]] && rows[todo[0]].hostId == hostId
    ensures CallOf(l, s, RevokeHost(hostId, Cascade(todo, rows)), now, true) ==
            (s.(agents := s.agents[todo[0] := Identity.Cascaded(s.agents[todo[0]], hostId)]),
             RevokeHost(hostId, Cascade(todo[1..], rows)))
  {
    if !Identity.Usable(s.agents[todo[0]].status) {
      assert s.agents[todo[0] := s.agents[todo[0]]] == s.agents;
    }
  }

  lemma RevokeHostAlone(l: Lifetimes, s: Store, hostId: nat, now: int)
    ensures var k := |Listed(s.agents, hostId, 0)| + 4;
            var (after, r) := Alone(l, s, RevokeHost(hostId, FindHostRow), now, k);
            var outcome := Identity.RevokeHost(s, hostId);
            && after == Identity.OrKeep(outcome, s)
            && r == RevokeHost(hostId, if outcome.Ok? then HostRevoked else HostNotRevoked(outcome.error))
  {
    var ids := Listed(s.agents, hostId, 0);
    var r0 := RevokeHost(hostId, FindHostRow);
    var (s1, r1) := CallOf(l, s, r0, now, true);
    var (s2, r2) := CallOf(l, s1, r1, now, true);
    var (s3, r3) := CallOf(l, s2, r2, now, true);
    assert Alone(l, s, r0, now, |ids| + 4) == Alone(l, s1, r1, now, |ids| + 3);
    assert Alone(l, s1, r1, now, |ids| + 3) == Alone(l, s2, r2, now, |ids| + 2);
    assert Alone(l, s2, r2, now, |ids| + 2) == Alone(l, s3, r3, now, |ids| + 1);
    if r3.hostRevocation.Cascade? {
      ListedIsExact(s.agents, hostId, 0);
      CascadeAlone(l, s3, hostId, s.agents, ids, now);
      assert CascadedBy(s.agents, hostId, ids) == Identity.RevokeHost(s, hostId).value.agents;
    } else {
      EndedStays(l, s3, hostId, r3.hostRevocation, now, |ids| + 1);
    }
  }

  lemma {:induction false} EndedStays(l: Lifetimes, s: Store, hostId: nat, at: HostRevocation, now: int, k: nat)
    requires at.HostRevoked? || at.HostNotRevoked?
    ensures Alone(l, s, RevokeHost(hostId, at), now, k) == (s, RevokeHost(hostId, at))
  {
    if k > 0 {
      EndedStays(l, s, hostId, at, now, k - 1);
    }
  }

  /**
   * The six calls of a login with nobody else in between: its agent read, the check of its signature, its host read,
   * the check of its claims, the state check, and the check of its capability.
   */
  function LogInUndisturbed(s: Store, subject: nat, now: int, verified: bool, claimed: bool, allowed: bool): Login {
    var read := LogInStep(s, subject, ReadAgent, now, true);
    var checked := LogInStep(s, subject, read, now, verified);
    var resolved := LogInStep(s, subject, checked, now, true);
    var timely := LogInStep(s, subject, resolved, now, claimed);
    var alive := LogInStep(s, subject, timely, now, true);
    LogInStep(s, subject, alive, now, allowed)
  }

  /** Undisturbed, a login is accepted iff its own checks pass and the agent may act; it never touches the tables. */
  lemma LogInAlone(l: Lifetimes, s: Store, subject: nat, now: int, verified: bool, claimed: bool, allowed: bool)
    ensures LogInUndisturbed(s, subject, now, verified, claimed, allowed) ==
            if && subject < |s.agents| && Pipeline.MayAct(s, subject, now) && verified && claimed && allowed
            then Accepted(s.agents[subject]) else Refused
    ensures forall at, pass :: CallOf(l, s, LogIn(subject, at), now, pass).0 == s
  {
  }

  /** And that is the verdict of the pipeline on the agent's request, its clock read once. */
  lemma LogInIsThePipeline(w: Pipeline.World, r: Pipeline.Request, at: Pipeline.Instants, rows: ReplayCache.Rows,
      subject: nat)
    requires r.kind == AgentToken && Pipeline.IsSubject(w, r, subject) && Grants.OnePerPair(w.grants)
    ensures var verified := r.token.typ == "agent+jwt" && w.verifies(r.token, Pipeline.AgentKey(subject));
            var claims := r.token.claims.registered;
            var unused := claims.jti in rows ==> rows[claims.jti] < at.putAt;
            var claimed := ReplayCache.ClaimsHold(w.config, claims, at.readAt) && unused;
            var allowed := Pipeline.MayUse(w, r, subject, at.lookupAt);
            LogInUndisturbed(w.store, subject, at.stateAt, verified, claimed, allowed).Accepted? <==>
            Pipeline.RunStages(Pipeline.AGENT_STAGES, w, r, at, rows).error.None?
  {
    Pipeline.AgentAcceptedExactlyWhen(w, r, at, rows);
    assert Pipeline.RunStages(Pipeline.AGENT_STAGES, w, r, at, rows).error.None? <==>
           Pipeline.AgentEnters(w, r, at, rows, subject);
  }

  // ---------------------------------------------------------------- what no call undoes

  /** Rows stay, agents keep their host, and nothing comes back from `revoked`. */
  ghost predicate Advances(before: Store, after: Store) {
    && |before.hosts| <= |after.hosts| && |before.agents| <= |after.agents|
    && (forall h :: 0 <= h < |before.hosts| && before.hosts[h] == HostState.Revoked ==>
                      after.hosts[h] == HostState.Revoked)
    && (forall a :: 0 <= a < |before.agents| ==>
                      && after.agents[a].hostId == before.agents[a].hostId
                      && (before.agents[a].status == AgentState.Revoked
                          ==> after.agents[a].status == AgentState.Revoked))
  }

  lemma CallAdvances(l: Lifetimes, s: Store, r: Request, now: int, pass: bool)
    ensures Advances(s, CallOf(l, s, r, now, pass).0)
  {
  }

  lemma NextAdvances(l: Lifetimes, y: System, action: Action)
    ensures Advances(y.store, Next(l, y, action).store)
    ensures |y.requests| <= |Next(l, y, action).requests|
  {
    if action.Call? && action.index < |y.requests| {
      CallAdvances(l, y.store, y.requests[action.index], action.now, action.pass);
    }
  }

  lemma {:induction false} HostStaysRevoked(l: Lifetimes, start: System, schedule: seq<Action>, m: nat, n: nat, h: nat)
    requires m <= n <= |schedule|
    requires h < |After(l, start, schedule, m).store.hosts|
    requires After(l, start, schedule, m).store.hosts[h] == HostState.Revoked
    ensures h < |After(l, start, schedule, n).store.hosts|
    ensures After(l, start, schedule, n).store.hosts[h] == HostState.Revoked
  {
    if m < n {
      HostStaysRevoked(l, start, schedule, m, n - 1, h);
      NextAdvances(l, After(l, start, schedule, n - 1), schedule[n - 1]);
    }
  }

  /** Under every schedule, a host's own token is refused in every state after its revocation, a good one for that. */
  lemma HostTokensEndWithHost(l: Lifetimes, start: System, schedule: seq<Action>, m: nat, n: nat, h: nat,
      w: Pipeline.World, r: Pipeline.Request, at: Pipeline.Instants, rows: ReplayCache.Rows)
    requires m <= n <= |schedule| && w.store == After(l, start, schedule, n).store
    requires h < |After(l, start, schedule, m).store.hosts|
    requires After(l, start, schedule, m).store.hosts[h] == HostState.Revoked
    requires r.kind == HostToken && r.token.Jwt? && r.token.issuer == Some(h)
    ensures var error := Pipeline.RunStages(Pipeline.HOST_STAGES, w, r, at, rows).error;
            && error.Some?
            && (Pipeline.GoodToken(w, r, at, rows, "host+jwt", Pipeline.HostKey(h)) ==>
                  error == Some(Pipeline.BadState(HostNotActive(HostState.Revoked))))
  {
    HostStaysRevoked(l, start, schedule, m, n, h);
    Pipeline.HostAcceptedExactlyWhen(w, r, at, rows);
    if Pipeline.GoodToken(w, r, at, rows, "host+jwt", Pipeline.HostKey(h)) {
      Pipeline.HostStateDecides(w, r, at, rows, h);
    }
  }

  // ---------------------------------------------------------------- revocation is safe under every interleaving

  /** A login that cannot end in acceptance for an agent of host `h`, given that `h` is revoked. */
  predicate HostDooms(r: Request, h: nat) {
    r.LogIn? ==>
      match r.login
      case Claims(agent, host) => agent.hostId == h ==> host == Some(HostState.Revoked)
      case State(agent, host) => agent.hostId == h ==> host == Some(HostState.Revoked)
      case Capability(agent) => agent.hostId != h
      case Accepted(agent) => agent.hostId != h
      case _ => true
  }

  /** The login has not made its host read. */
  predicate BeforeHostRead(r: Request) {
    r.LogIn? && (r.login.ReadAgent? || r.login.Verify? || r.login.ReadHost?)
  }

  ghost predicate HostDoomsAll(y: System, h: nat, chosen: nat -> bool) {
    && h < |y.store.hosts| && y.store.hosts[h] == HostState.Revoked
    && (forall i :: 0 <= i < |y.requests| && chosen(i) ==> HostDooms(y.requests[i], h))
  }

  lemma HostDoomsNext(l: Lifetimes, y: System, action: Action, h: nat, chosen: nat -> bool)
    requires HostDoomsAll(y, h, chosen)
    ensures HostDoomsAll(Next(l, y, action), h, chosen)
  {
    NextAdvances(l, y, action);
  }

  lemma {:induction false} HostDoomsAlong(l: Lifetimes, start: System, schedule: seq<Action>, m: nat, n: nat, h: nat,
      chosen: nat -> bool)
    requires m <= n <= |schedule| && HostDoomsAll(After(l, start, schedule, m), h, chosen)
    ensures HostDoomsAll(After(l, start, schedule, n), h, chosen)
  {
    if m < n {
      HostDoomsAlong(l, start, schedule, m, n - 1, h, chosen);
      HostDoomsNext(l, After(l, start, schedule, n - 1), schedule[n - 1], h, chosen);
    }
  }

  /**
   * Whatever else is in flight: once a host is revoked, a login that has not yet read the host row (or has not
   * even arrived) is never accepted for an agent of that host, in any later state of any schedule.
   */
  lemma HostRevocationIsSafe(l: Lifetimes, start: System, schedule: seq<Action>, m: nat, n: nat, h: nat, i: nat)
    requires m <= n <= |schedule| && h < |After(l, start, schedule, m).store.hosts|
    requires After(l, start, schedule, m).store.hosts[h] == HostState.Revoked
    requires i < |After(l, start, schedule, n).requests|
    requires i < |After(l, start, schedule, m).requests| ==> BeforeHostRead(After(l, start, schedule, m).requests[i])
    ensures var r := After(l, start, schedule, n).requests[i];
            r.LogIn? && r.login.Accepted? ==> r.login.agent.hostId != h
  {
    HostDoomsAlong(l, start, schedule, m, n, h, j => j == i);
  }

  /** The same for one agent: here it is the first read that counts. */
  predicate AgentDooms(r: Request, a: nat) {
    r.LogIn? && r.subject == a ==>
      match r.login
      case ReadAgent => true
      case Refused => true
      case Capability(_) => false
      case Accepted(_) => false
      case _ => r.login.agent.status == AgentState.Revoked
  }

  ghost predicate AgentDoomsAll(y: System, a: nat, chosen: nat -> bool) {
    && a < |y.store.agents| && y.store.agents[a].status == AgentState.Revoked
    && (forall i :: 0 <= i < |y.requests| && chosen(i) ==> AgentDooms(y.requests[i], a))
  }

  lemma AgentDoomsNext(l: Lifetimes, y: System, action: Action, a: nat, chosen: nat -> bool)
    requires AgentDoomsAll(y, a, chosen)
    ensures AgentDoomsAll(Next(l, y, action), a, chosen)
  {
    NextAdvances(l, y, action);
  }

  lemma {:induction false} AgentDoomsAlong(l: Lifetimes, start: System, schedule: seq<Action>, m: nat, n: nat,
      a: nat, chosen: nat -> bool)
    requires m <= n <= |schedule| && AgentDoomsAll(After(l, start, schedule, m), a, chosen)
    ensures AgentDoomsAll(After(l, start, schedule, n), a, chosen)
  {
    if m < n {
      AgentDoomsAlong(l, start, schedule, m, n - 1, a, chosen);
      AgentDoomsNext(l, After(l, start, schedule, n - 1), schedule[n - 1], a, chosen);
    }
  }

  lemma AgentRevocationIsSafe(l: Lifetimes, start: System, schedule: seq<Action>, m: nat, n: nat, a: nat, i: nat)
    requires m <= n <= |schedule| && a < |After(l, start, schedule, m).store.agents|
    requires After(l, start, schedule, m).store.agents[a].status == AgentState.Revoked
    requires i < |After(l, start, schedule, n).requests|
    requires var now := After(l, start, schedule, m).requests;
             i < |now| ==> now[i].LogIn? && now[i].login.ReadAgent?
    ensures var r := After(l, start, schedule, n).requests[i];
            r.LogIn? && r.login.Accepted? ==> r.subject != a
  {
    AgentDoomsAlong(l, start, schedule, m, n, a, j => j == i);
  }

  // ---------------------------------------------------------------- the absolute clock under every interleaving

  /** The row a registration has made and not yet stamped. */
  function NewRow(r: Request): Option<nat> {
    match r
    case Register(_, ActivateNew(id)) => Some(id)
    case Register(_, StampNew(id)) => Some(id)
    case _ => None
  }

  /** The absolute clock a reactivation remembers. */
  function Remembered(r: Request): (clock: Option<int>)
    ensures clock.Some? ==> r.Reactivate?
  {
    match r
    case Reactivate(_, _, ActivateAgain(absolute)) => absolute
    case Reactivate(_, _, StampAgain(absolute)) => absolute
    case _ => None
  }

  predicate AbsentOr(s: Store, a: nat, x: int) {
    a < |s.agents| && (s.agents[a].clocks.absolute.Some? ==> s.agents[a].clocks.absolute.value == x)
  }

  /** A row being registered has no absolute clock; what is remembered is what the row has, if it has one. */
  predicate Fits(s: Store, r: Request) {
    && (NewRow(r).Some? ==> NewRow(r).value < |s.agents| && s.agents[NewRow(r).value].clocks.absolute.None?)
    && (Remembered(r).Some? ==> AbsentOr(s, r.agentId, Remembered(r).value))
  }

  /** No two requests register one row, remember the clock of a row being registered, or remember two clocks. */
  predicate Agree(r: Request, q: Request) {
    && (NewRow(r).Some? ==> NewRow(q) != NewRow(r))
    && (NewRow(r).Some? && Remembered(q).Some? ==> q.agentId != NewRow(r).value)
    && (NewRow(q).Some? && Remembered(r).Some? ==> r.agentId != NewRow(q).value)
    && (Remembered(r).Some? && Remembered(q).Some? && r.agentId == q.agentId ==> Remembered(r) == Remembered(q))
  }

  ghost predicate OneClock(y: System) {
    && (forall i :: 0 <= i < |y.requests| ==> Fits(y.store, y.requests[i]))
    && (forall i, j :: 0 <= i < |y.requests| && 0 <= j < |y.requests| && i != j ==> Agree(y.requests[i], y.requests[j]))
  }

  /** No other value of the clock of `a` is around, and none will be made. */
  predicate Only(r: Request, a: nat, x: int) {
    NewRow(r) != Some(a) && (Remembered(r).Some? && r.agentId == a ==> Remembered(r).value == x)
  }

  ghost predicate OnlyClock(y: System, a: nat, x: int) {
    AbsentOr(y.store, a, x) && forall i :: 0 <= i < |y.requests| ==> Only(y.requests[i], a, x)
  }

  lemma CallKeepsClocks(l: Lifetimes, s: Store, r: Request, q: Request, now: int, pass: bool)
    requires Fits(s, r) && Fits(s, q) && Agree(r, q)
    ensures var (after, next) := CallOf(l, s, r, now, pass);
            Fits(after, next) && Fits(after, q) && Agree(next, q) && Agree(q, next)
  {
  }

  lemma CallFits(l: Lifetimes, s: Store, r: Request, now: int, pass: bool)
    requires Fits(s, r)
    ensures var (after, next) := CallOf(l, s, r, now, pass); Fits(after, next)
  {
  }

  lemma CallKeepsOnly(l: Lifetimes, s: Store, r: Request, a: nat, x: int, now: int, pass: bool)
    requires AbsentOr(s, a, x) && Only(r, a, x)
    ensures var (after, next) := CallOf(l, s, r, now, pass); AbsentOr(after, a, x) && Only(next, a, x)
  {
  }

  lemma OneClockNext(l: Lifetimes, y: System, action: Action)
    requires OneClock(y)
    ensures OneClock(Next(l, y, action))
  {
    if action.Call? && action.index < |y.requests| {
      var r := y.requests[action.index];
      CallFits(l, y.store, r, action.now, action.pass);
      forall i | 0 <= i < |y.requests| && i != action.index
        ensures var (after, next) := CallOf(l, y.store, r, action.now, action.pass);
                Fits(after, y.requests[i]) && Agree(next, y.requests[i]) && Agree(y.requests[i], next)
      {
        CallKeepsClocks(l, y.store, r, y.requests[i], action.now, action.pass);
      }
    }
  }

  lemma OnlyClockNext(l: Lifetimes, y: System, action: Action, a: nat, x: int)
    requires OnlyClock(y, a, x)
    ensures OnlyClock(Next(l, y, action), a, x)
  {
    if action.Call? && action.index < |y.requests| {
      CallKeepsOnly(l, y.store, y.requests[action.index], a, x, action.now, action.pass);
    }
  }

  lemma {:induction false} OneClockAlong(l: Lifetimes, start: System, schedule: seq<Action>, n: nat)
    requires n <= |schedule| && OneClock(start)
    ensures OneClock(After(l, start, schedule, n))
  {
    if n > 0 {
      OneClockAlong(l, start, schedule, n - 1);
      OneClockNext(l, After(l, start, schedule, n - 1), schedule[n - 1]);
    }
  }

  lemma {:induction false} OnlyClockAlong(l: Lifetimes, start: System, schedule: seq<Action>, m: nat, n: nat, a: nat,
      x: int)
    requires m <= n <= |schedule| && OnlyClock(After(l, start, schedule, m), a, x)
    ensures OnlyClock(After(l, start, schedule, n), a, x)
  {
    if m < n {
      OnlyClockAlong(l, start, schedule, m, n - 1, a, x);
      OnlyClockNext(l, After(l, start, schedule, n - 1), schedule[n - 1], a, x);
    }
  }

  /** Under every interleaving an agent's absolute clock takes at most one value, ever. */
  lemma AbsoluteClockTakesOneValue(l: Lifetimes, start: System, schedule: seq<Action>, m: nat, n: nat, a: nat)
    requires m <= n <= |schedule| && start.requests == []
    requires a < |After(l, start, schedule, m).store.agents|
    requires After(l, start, schedule, m).store.agents[a].clocks.absolute.Some?
    ensures a < |After(l, start, schedule, n).store.agents|
    ensures var before := After(l, start, schedule, m).store.agents[a];
            var after := After(l, start, schedule, n).store.agents[a];
            after.clocks.absolute == None || after.clocks.absolute == before.clocks.absolute
  {
    OneClockAlong(l, start, schedule, m);
    OnlyClockAlong(l, start, schedule, m, n, a, After(l, start, schedule, m).store.agents[a].clocks.absolute.value);
  }

  // ---------------------------------------------------------------- schedules in parts

  lemma {:induction false} AfterConcat(l: Lifetimes, start: System, first: seq<Action>, rest: seq<Action>, n: nat)
    requires n <= |rest|
    ensures After(l, start, first + rest, |first| + n) == After(l, After(l, start, first, |first|), rest, n)
  {
    if n == 0 {
      AfterPrefix(l, start, first, first + rest, |first|);
    } else {
      AfterConcat(l, start, first, rest, n - 1);
    }
  }

  lemma {:induction false} AfterPrefix(l: Lifetimes, start: System, a: seq<Action>, b: seq<Action>, n: nat)
    requires n <= |a| <= |b| && a == b[..|a|]
    ensures After(l, start, a, n) == After(l, start, b, n)
  {
    if n > 0 {
      AfterPrefix(l, start, a, b, n - 1);
    }
  }

  lemma GoOn(l: Lifetimes, start: System, mid: System, first: seq<Action>, rest: seq<Action>)
    requires After(l, start, first, |first|) == mid
    ensures After(l, start, first + rest, |first + rest|) == After(l, mid, rest, |rest|)
  {
    AfterConcat(l, start, first, rest, |rest|);
  }

  /** `k` calls of one request. */
  function Calls(i: nat, now: int, k: nat): seq<Action> {
    seq(k, _ => Call(i, now, true))
  }

  lemma {:induction false} AloneSnoc(l: Lifetimes, s: Store, r: Request, now: int, k: nat)
    ensures var (after, next) := Alone(l, s, r, now, k); Alone(l, s, r, now, k + 1) == CallOf(l, after, next, now, true)
    decreases k
  {
    if k == 0 {
      var (after, next) := CallOf(l, s, r, now, true);
      assert Alone(l, after, next, now, 0) == (after, next);
    } else {
      var (after, next) := CallOf(l, s, r, now, true);
      AloneSnoc(l, after, next, now, k - 1);
    }
  }

  /** With nobody else in between, the schedule is the request running alone. */
  lemma {:induction false} CallsAreAlone(l: Lifetimes, y: System, i: nat, now: int, k: nat, n: nat)
    requires i < |y.requests| && k <= n
    ensures var (store, r) := Alone(l, y.store, y.requests[i], now, k);
            After(l, y, Calls(i, now, n), k) == System(store, y.requests[i := r])
  {
    if k == 0 {
      assert y.requests[i := y.requests[i]] == y.requests;
    } else {
      CallsAreAlone(l, y, i, now, k - 1, n);
      AloneSnoc(l, y.store, y.requests[i], now, k - 1);
    }
  }

  // ---------------------------------------------------------------- when a cascade completes

  /** The revocation of `h` has just taken its list. */
  ghost predicate JustListed(y: System, i: nat, h: nat) {
    && i < |y.requests|
    && y.requests[i] == RevokeHost(h, Cascade(Listed(y.store.agents, h, 0), y.store.agents))
  }

  ghost predicate RevokedIfListedUsable(s: Store, rows: seq<Agent>, a: nat) {
    a < |rows| && Identity.Usable(rows[a].status) ==> a < |s.agents| && s.agents[a].status == AgentState.Revoked
  }

  /** How far the cascade over `list` has come: those it is done with are revoked. */
  ghost predicate CascadeHasCome(y: System, i: nat, h: nat, rows: seq<Agent>, list: seq<nat>) {
    && i < |y.requests| && y.requests[i].RevokeHost? && y.requests[i].hostId == h
    && |rows| <= |y.store.agents|
    && match y.requests[i].hostRevocation
       case Cascade(todo, read) =>
         && read == rows && |todo| <= |list| && todo == list[|list| - |todo|..]
         && forall k :: 0 <= k < |list| - |todo| ==> RevokedIfListedUsable(y.store, rows, list[k])
       case HostRevoked => forall k :: 0 <= k < |list| ==> RevokedIfListedUsable(y.store, rows, list[k])
       case HostNotRevoked(_) => true
       case _ => false
  }

  lemma CascadeStepCounts(s: Store, h: nat, at: HostRevocation, rows: seq<Agent>, list: seq<nat>)
    requires at.Cascade? && at.rows == rows && |rows| <= |s.agents| && |at.todo| <= |list|
    requires at.todo == list[|list| - |at.todo|..]
    requires forall k :: 0 <= k < |list| - |at.todo| ==> RevokedIfListedUsable(s, rows, list[k])
    ensures var (after, next) := RevokeHostStep(s, h, at);
            match next
            case Cascade(todo, read) =>
              && read == rows && |todo| <= |list| && todo == list[|list| - |todo|..]
              && forall k :: 0 <= k < |list| - |todo| ==> RevokedIfListedUsable(after, rows, list[k])
            case HostRevoked => forall k :: 0 <= k < |list| ==> RevokedIfListedUsable(after, rows, list[k])
            case HostNotRevoked(_) => true
            case _ => false
  {
    if at.todo != [] {
      assert at.todo[0] == list[|list| - |at.todo|] && at.todo[1..] == list[|list| - |at.todo| + 1..];
    }
  }

  lemma CascadeComesFurther(l: Lifetimes, y: System, action: Action, i: nat, h: nat, rows: seq<Agent>, list: seq<nat>)
    requires CascadeHasCome(y, i, h, rows, list)
    ensures CascadeHasCome(Next(l, y, action), i, h, rows, list)
  {
    NextAdvances(l, y, action);
    if action.Call? && action.index == i {
      if y.requests[i].hostRevocation.Cascade? {
        CascadeStepCounts(y.store, h, y.requests[i].hostRevocation, rows, list);
      }
    }
  }

  lemma {:induction false} CascadeComesAlong(l: Lifetimes, y: System, schedule: seq<Action>, n: nat, i: nat, h: nat)
    requires n <= |schedule| && JustListed(y, i, h)
    ensures CascadeHasCome(After(l, y, schedule, n), i, h, y.store.agents, Listed(y.store.agents, h, 0))
  {
    if n > 0 {
      CascadeComesAlong(l, y, schedule, n - 1, i, h);
      CascadeComesFurther(l, After(l, y, schedule, n - 1), schedule[n - 1], i, h, y.store.agents,
                          Listed(y.store.agents, h, 0));
    }
  }

  /** Where the revocation stands. */
  ghost predicate EndsRevoked(y: System, i: nat) {
    i < |y.requests| && y.requests[i].RevokeHost? && y.requests[i].hostRevocation.HostRevoked?
  }

  ghost predicate EndsInFailure(y: System, i: nat) {
    i < |y.requests| && y.requests[i].RevokeHost? && y.requests[i].hostRevocation.HostNotRevoked?
  }

  /** Under every schedule a cascade that has ended well has revoked every agent that was usable when it was listed. */
  lemma CompletedCascadeRevokesListed(l: Lifetimes, y: System, schedule: seq<Action>, n: nat, i: nat, h: nat, a: nat)
    requires n <= |schedule| && JustListed(y, i, h) && EndsRevoked(After(l, y, schedule, n), i)
    requires a < |y.store.agents| && y.store.agents[a].hostId == h && Identity.Usable(y.store.agents[a].status)
    ensures a < |After(l, y, schedule, n).store.agents|
    ensures After(l, y, schedule, n).store.agents[a].status == AgentState.Revoked
  {
    CascadeComesAlong(l, y, schedule, n, i, h);
    ListedIsExact(y.store.agents, h, 0);
    var list := Listed(y.store.agents, h, 0);
    var k :| 0 <= k < |list| && list[k] == a;
    assert RevokedIfListedUsable(After(l, y, schedule, n).store, y.store.agents, list[k]);
  }

  /**
   * In this state it is the turn of an agent that was usable when it was listed and is so no longer: someone else
   * revoked or claimed it.
   */
  ghost predicate LostBeforeTurn(y: System, i: nat) {
    && i < |y.requests| && y.requests[i].RevokeHost? && y.requests[i].hostRevocation.Cascade?
    && var at := y.requests[i].hostRevocation;
       && at.todo != [] && at.todo[0] < |at.rows| <= |y.store.agents|
       && Identity.Usable(at.rows[at.todo[0]].status) && !Identity.Usable(y.store.agents[at.todo[0]].status)
  }

  /** Its turn comes with this action. */
  ghost predicate LostAt(l: Lifetimes, y: System, schedule: seq<Action>, k: nat, i: nat)
    requires k < |schedule|
  {
    schedule[k].Call? && schedule[k].index == i && LostBeforeTurn(After(l, y, schedule, k), i)
  }

  /** One call of a cascade fails iff it is the turn of an agent listed as usable that no longer is. */
  lemma CascadeStepFailsIff(s: Store, h: nat, at: HostRevocation)
    requires at.Cascade? && |at.rows| <= |s.agents|
    ensures RevokeHostStep(s, h, at).1.HostNotRevoked? <==>
            && at.todo != [] && at.todo[0] < |at.rows|
            && Identity.Usable(at.rows[at.todo[0]].status) && !Identity.Usable(s.agents[at.todo[0]].status)
  {
  }

  lemma FailsIffLost(l: Lifetimes, y: System, action: Action, i: nat, h: nat, rows: seq<Agent>, list: seq<nat>)
    requires CascadeHasCome(y, i, h, rows, list)
    ensures EndsInFailure(Next(l, y, action), i) <==>
            EndsInFailure(y, i) || (action.Call? && action.index == i && LostBeforeTurn(y, i))
  {
    if y.requests[i].hostRevocation.Cascade? {
      CascadeStepFailsIff(y.store, h, y.requests[i].hostRevocation);
    }
  }

  lemma OneMoreCall(l: Lifetimes, y: System, schedule: seq<Action>, n: nat, i: nat, h: nat)
    requires 0 < n <= |schedule| && JustListed(y, i, h)
    ensures EndsInFailure(After(l, y, schedule, n), i) <==>
            EndsInFailure(After(l, y, schedule, n - 1), i) || LostAt(l, y, schedule, n - 1, i)
  {
    CascadeComesAlong(l, y, schedule, n - 1, i, h);
    FailsIffLost(l, After(l, y, schedule, n - 1), schedule[n - 1], i, h, y.store.agents, Listed(y.store.agents, h, 0));
  }

  /** Under every schedule a cascade ends in failure iff some agent usable when listed was lost before its turn. */
  lemma {:induction false} CascadeFailsExactlyWhen(l: Lifetimes, y: System, schedule: seq<Action>, n: nat, i: nat,
      h: nat)
    requires n <= |schedule| && JustListed(y, i, h)
    ensures EndsInFailure(After(l, y, schedule, n), i) <==> exists k :: 0 <= k < n && LostAt(l, y, schedule, k, i)
  {
    if n > 0 {
      CascadeFailsExactlyWhen(l, y, schedule, n - 1, i, h);
      OneMoreCall(l, y, schedule, n, i, h);
    }
  }

  /** No agent of `h` is active or expired. */
  ghost predicate NoneUsable(s: Store, h: nat) {
    forall a :: 0 <= a < |s.agents| && s.agents[a].hostId == h ==> !Identity.Usable(s.agents[a].status)
  }

  /** Whoever is lost before its turn was usable when the list was taken. */
  lemma LostWasListedUsable(l: Lifetimes, y: System, schedule: seq<Action>, k: nat, i: nat, h: nat)
    requires k < |schedule| && JustListed(y, i, h) && LostAt(l, y, schedule, k, i)
    ensures !NoneUsable(y.store, h)
  {
    CascadeComesAlong(l, y, schedule, k, i, h);
    ListedIsExact(y.store.agents, h, 0);
    var todo, list := After(l, y, schedule, k).requests[i].hostRevocation.todo, Listed(y.store.agents, h, 0);
    assert todo[0] == list[|list| - |todo|] && todo[0] in list;
  }

  /** Run alone, a cascade that still has to come to a lost agent fails. */
  lemma {:induction false} CascadeAloneFails(l: Lifetimes, s: Store, h: nat, rows: seq<Agent>, todo: seq<nat>, a: nat,
      now: int)
    requires |rows| <= |s.agents| && a in todo && a < |rows|
    requires Identity.Usable(rows[a].status) && !Identity.Usable(s.agents[a].status)
    ensures var r := Alone(l, s, RevokeHost(h, Cascade(todo, rows)), now, |todo|).1;
            r.RevokeHost? && r.hostRevocation.HostNotRevoked?
    decreases |todo|
  {
    var r := RevokeHost(h, Cascade(todo, rows));
    var (after, next) := CallOf(l, s, r, now, true);
    CascadeStepFailsIff(s, h, r.hostRevocation);
    if next.hostRevocation.HostNotRevoked? {
      EndedStays(l, after, h, next.hostRevocation, now, |todo| - 1);
    } else {
      CascadeAloneFails(l, after, h, rows, todo[1..], a, now);
    }
  }

  /** The host takes back one of its agents by itself. */
  function Loss(y: System, h: nat, a: nat): seq<Action> {
    [Arrive(Revoke(h, a, FindOwn))] + Calls(|y.requests|, 0, 2)
  }

  lemma AgentIsLost(l: Lifetimes, y: System, h: nat, a: nat)
    requires a < |y.store.agents| && y.store.agents[a].hostId == h && Identity.Usable(y.store.agents[a].status)
    ensures var after := After(l, y, Loss(y, h, a), 3);
            && after.store == y.store.(agents := y.store.agents[a := y.store.agents[a].(status := AgentState.Revoked)])
            && after.requests == y.requests + [Revoke(h, a, AgentRevoked)]
  {
    var schedule := Loss(y, h, a);
    assert After(l, y, schedule, 1) == y.(requests := y.requests + [Revoke(h, a, FindOwn)]);
    assert After(l, y, schedule, 2) == y.(requests := y.requests + [Revoke(h, a, RevokeRow)]);
  }

  lemma ListingCanFail(l: Lifetimes, y: System, i: nat, h: nat, a: nat) returns (schedule: seq<Action>)
    requires JustListed(y, i, h) && a < |y.store.agents|
    requires y.store.agents[a].hostId == h && Identity.Usable(y.store.agents[a].status)
    ensures EndsInFailure(After(l, y, schedule, |schedule|), i)
  {
    var list := Listed(y.store.agents, h, 0);
    ListedIsExact(y.store.agents, h, 0);
    AgentIsLost(l, y, h, a);
    var mid := After(l, y, Loss(y, h, a), |Loss(y, h, a)|);
    CascadeAloneFails(l, mid.store, h, y.store.agents, list, a, 0);
    CallsAreAlone(l, mid, i, 0, |list|, |list|);
    GoOn(l, y, mid, Loss(y, h, a), Calls(i, 0, |list|));
    schedule := Loss(y, h, a) + Calls(i, 0, |list|);
  }

  /** The revocation has failed after the first `n` actions. */
  ghost predicate FailsBy(l: Lifetimes, y: System, schedule: seq<Action>, n: nat, i: nat)
    requires n <= |schedule|
  {
    EndsInFailure(After(l, y, schedule, n), i)
  }

  /** Seen from the listing: no continuation makes the cascade fail iff it has nobody to revoke. */
  lemma CascadeCannotFailExactlyWhen(l: Lifetimes, y: System, i: nat, h: nat)
    requires JustListed(y, i, h)
    ensures (forall schedule: seq<Action>, n: nat :: n <= |schedule| ==> !FailsBy(l, y, schedule, n, i))
            <==> NoneUsable(y.store, h)
  {
    if !NoneUsable(y.store, h) {
      var a :| 0 <= a < |y.store.agents| && y.store.agents[a].hostId == h && Identity.Usable(y.store.agents[a].status);
      var schedule := ListingCanFail(l, y, i, h, a);
      assert FailsBy(l, y, schedule, |schedule|, i);
    } else {
      forall schedule: seq<Action>, n: nat | n <= |schedule| ensures !FailsBy(l, y, schedule, n, i) {
        CascadeFailsExactlyWhen(l, y, schedule, n, i, h);
        if k :| 0 <= k < n && LostAt(l, y, schedule, k, i) {
          LostWasListedUsable(l, y, schedule, k, i, h);
        }
      }
    }
  }

  // ---------------------------------------------------------------- when the host invariant survives

  /** No row of `h` awaits activation, and no registration has passed its host check without making its row. */
  ghost predicate Settled(y: System, h: nat) {
    && (forall a :: 0 <= a < |y.store.agents| && y.store.agents[a].hostId == h ==>
                      y.store.agents[a].status != AgentState.Pending)
    && (forall j :: 0 <= j < |y.requests| ==> y.requests[j] != Register(h, CreateAgent))
  }

  /** Where the agents of `h` come from: rows usable or pending in `rows`, or made since by a `late` registration. */
  ghost predicate Origins(s: Store, h: nat, rows: seq<Agent>, late: bool) {
    && h < |s.hosts| && s.hosts[h] == HostState.Revoked && |rows| <= |s.agents|
    && forall a :: 0 <= a < |s.agents| && s.agents[a].hostId == h ==>
         if a >= |rows| then late
         else
           && rows[a].hostId == h
           && (Identity.Usable(s.agents[a].status) ==>
                 rows[a].status == AgentState.Pending || Identity.Usable(rows[a].status))
           && (s.agents[a].status == AgentState.Pending ==> rows[a].status == AgentState.Pending)
  }

  ghost predicate NoneLateUnless(y: System, h: nat, late: bool) {
    forall j :: 0 <= j < |y.requests| && y.requests[j] == Register(h, CreateAgent) ==> late
  }

  lemma CallKeepsOrigins(l: Lifetimes, s: Store, r: Request, now: int, pass: bool, h: nat, rows: seq<Agent>, late: bool)
    requires Origins(s, h, rows, late) && (r == Register(h, CreateAgent) ==> late)
    ensures var (after, next) := CallOf(l, s, r, now, pass);
            Origins(after, h, rows, late) && (next == Register(h, CreateAgent) ==> late)
  {
  }

  lemma OriginsNext(l: Lifetimes, y: System, action: Action, h: nat, rows: seq<Agent>, late: bool)
    requires Origins(y.store, h, rows, late) && NoneLateUnless(y, h, late)
    ensures Origins(Next(l, y, action).store, h, rows, late) && NoneLateUnless(Next(l, y, action), h, late)
  {
    if action.Call? && action.index < |y.requests| {
      CallKeepsOrigins(l, y.store, y.requests[action.index], action.now, action.pass, h, rows, late);
    }
  }

  lemma {:induction false} OriginsAlong(l: Lifetimes, y: System, schedule: seq<Action>, n: nat, h: nat, late: bool)
    requires n <= |schedule| && Origins(y.store, h, y.store.agents, late) && NoneLateUnless(y, h, late)
    ensures Origins(After(l, y, schedule, n).store, h, y.store.agents, late)
    ensures NoneLateUnless(After(l, y, schedule, n), h, late)
  {
    if n > 0 {
      OriginsAlong(l, y, schedule, n - 1, h, late);
      OriginsNext(l, After(l, y, schedule, n - 1), schedule[n - 1], h, y.store.agents, late);
    }
  }

  /**
   * Under every schedule: an agent of `h` that is active or expired once the cascade has ended well was a pending
   * row when the list was taken, or was made since, and then some registration had passed its host check by then.
   */
  lemma StragglersWerePendingOrLate(l: Lifetimes, y: System, schedule: seq<Action>, n: nat, i: nat, h: nat, a: nat)
    requires n <= |schedule| && JustListed(y, i, h) && h < |y.store.hosts| && y.store.hosts[h] == HostState.Revoked
    requires EndsRevoked(After(l, y, schedule, n), i) && a < |After(l, y, schedule, n).store.agents|
    requires var agent := After(l, y, schedule, n).store.agents[a]; agent.hostId == h && Identity.Usable(agent.status)
    ensures if a < |y.store.agents| then y.store.agents[a].status == AgentState.Pending
            else exists j :: 0 <= j < |y.requests| && y.requests[j] == Register(h, CreateAgent)
  {
    var late := exists j :: 0 <= j < |y.requests| && y.requests[j] == Register(h, CreateAgent);
    OriginsAlong(l, y, schedule, n, h, late);
    if a < |y.store.agents| && Identity.Usable(y.store.agents[a].status) {
      CompletedCascadeRevokesListed(l, y, schedule, n, i, h, a);
    }
  }

  /** Whenever the revocation has ended well no agent of `h` is usable. */
  ghost predicate LeavesNoneUsable(l: Lifetimes, y: System, schedule: seq<Action>, n: nat, i: nat, h: nat)
    requires n <= |schedule|
  {
    EndsRevoked(After(l, y, schedule, n), i) ==> NoneUsable(After(l, y, schedule, n).store, h)
  }

  lemma SettledLeavesNoneUsable(l: Lifetimes, y: System, schedule: seq<Action>, n: nat, i: nat, h: nat)
    requires n <= |schedule| && JustListed(y, i, h) && h < |y.store.hosts| && y.store.hosts[h] == HostState.Revoked
    requires Settled(y, h)
    ensures LeavesNoneUsable(l, y, schedule, n, i, h)
  {
    var after := After(l, y, schedule, n);
    if EndsRevoked(after, i) {
      forall a: nat | a < |after.store.agents| && after.store.agents[a].hostId == h
        ensures !Identity.Usable(after.store.agents[a].status)
      {
        if Identity.Usable(after.store.agents[a].status) {
          StragglersWerePendingOrLate(l, y, schedule, n, i, h, a);
          OriginsAlong(l, y, schedule, n, h, false);
        }
      }
    }
  }

  /** The system once the cascade has run to its end with nobody else in between. */
  function RunOut(y: System, i: nat, h: nat): System
    requires i < |y.requests|
  {
    System(y.store.(agents := CascadedBy(y.store.agents, h, Listed(y.store.agents, h, 0))),
           y.requests[i := RevokeHost(h, HostRevoked)])
  }

  lemma CascadeRunsOut(l: Lifetimes, y: System, i: nat, h: nat, k: nat)
    requires JustListed(y, i, h) && k == |Listed(y.store.agents, h, 0)| + 1
    ensures After(l, y, Calls(i, 0, k), k) == RunOut(y, i, h)
  {
    ListedIsExact(y.store.agents, h, 0);
    CascadeAlone(l, y.store, h, y.store.agents, Listed(y.store.agents, h, 0), 0);
    CallsAreAlone(l, y, i, 0, k, k);
  }

  /** A registration past its host check makes and activates its row. */
  lemma RegistrationGoesOn(l: Lifetimes, y: System, j: nat, h: nat)
    requires j < |y.requests| && y.requests[j] == Register(h, CreateAgent)
    ensures var after := After(l, y, Calls(j, 0, 2), 2);
            && !NoneUsable(after.store, h) && |after.requests| == |y.requests|
            && forall i :: 0 <= i < |y.requests| && i != j ==> after.requests[i] == y.requests[i]
  {
    var a := |y.store.agents|;
    var made := y.store.(agents := y.store.agents + [Agent(h, AgentState.Pending, NOT_STAMPED)]);
    assert After(l, y, Calls(j, 0, 2), 1) == System(made, y.requests[j := Register(h, ActivateNew(a))]);
    var after := After(l, y, Calls(j, 0, 2), 2);
    assert after.store.agents[a] == Agent(h, AgentState.Active, NOT_STAMPED);
  }

  /** A pending row can be activated by asking for its reactivation: the host is not looked at. */
  function ReactivatePending(y: System, h: nat, a: nat): seq<Action>
    requires a < |y.store.agents|
  {
    var absolute := y.store.agents[a].clocks.absolute;
    [Arrive(Reactivate(h, a, FindAgentRow))] +
    Calls(|y.requests|, if absolute.Some? then absolute.value - 1 else 0, 2)
  }

  lemma PendingCanBeActivated(l: Lifetimes, y: System, h: nat, a: nat)
    requires a < |y.store.agents| && y.store.agents[a].hostId == h && y.store.agents[a].status == AgentState.Pending
    ensures var after := After(l, y, ReactivatePending(y, h, a), 3);
            && !NoneUsable(after.store, h) && |after.requests| == |y.requests| + 1
            && forall i :: 0 <= i < |y.requests| ==> after.requests[i] == y.requests[i]
  {
    var schedule, absolute := ReactivatePending(y, h, a), y.store.agents[a].clocks.absolute;
    assert After(l, y, schedule, 1) == y.(requests := y.requests + [Reactivate(h, a, FindAgentRow)]);
    assert After(l, y, schedule, 2) == y.(requests := y.requests + [Reactivate(h, a, ActivateAgain(absolute))]);
    var after := After(l, y, schedule, 3);
    assert after.store.agents[a].hostId == h && after.store.agents[a].status == AgentState.Active;
  }

  /** Going on from where the cascade has run out. */
  lemma AfterTheCascade(l: Lifetimes, y: System, i: nat, h: nat, rest: seq<Action>) returns (schedule: seq<Action>)
    requires JustListed(y, i, h)
    ensures After(l, y, schedule, |schedule|) == After(l, RunOut(y, i, h), rest, |rest|)
  {
    var k := |Listed(y.store.agents, h, 0)| + 1;
    CascadeRunsOut(l, y, i, h, k);
    GoOn(l, y, RunOut(y, i, h), Calls(i, 0, k), rest);
    schedule := Calls(i, 0, k) + rest;
  }

  lemma LateGoesWrong(l: Lifetimes, y: System, i: nat, h: nat, j: nat) returns (schedule: seq<Action>)
    requires JustListed(y, i, h) && j < |y.requests| && y.requests[j] == Register(h, CreateAgent)
    ensures !LeavesNoneUsable(l, y, schedule, |schedule|, i, h)
  {
    schedule := AfterTheCascade(l, y, i, h, Calls(j, 0, 2));
    RegistrationGoesOn(l, RunOut(y, i, h), j, h);
  }

  lemma PendingGoesWrong(l: Lifetimes, y: System, i: nat, h: nat, a: nat) returns (schedule: seq<Action>)
    requires JustListed(y, i, h) && a < |y.store.agents|
    requires y.store.agents[a].hostId == h && y.store.agents[a].status == AgentState.Pending
    ensures !LeavesNoneUsable(l, y, schedule, |schedule|, i, h)
  {
    assert RunOut(y, i, h).store.agents[a] == y.store.agents[a];
    schedule := AfterTheCascade(l, y, i, h, ReactivatePending(RunOut(y, i, h), h, a));
    PendingCanBeActivated(l, RunOut(y, i, h), h, a);
  }

  lemma UnsettledGoesWrong(l: Lifetimes, y: System, i: nat, h: nat) returns (schedule: seq<Action>)
    requires JustListed(y, i, h) && !Settled(y, h)
    ensures !LeavesNoneUsable(l, y, schedule, |schedule|, i, h)
  {
    if j :| 0 <= j < |y.requests| && y.requests[j] == Register(h, CreateAgent) {
      schedule := LateGoesWrong(l, y, i, h, j);
    } else {
      var a: nat :| && a < |y.store.agents| && y.store.agents[a].hostId == h
                    && y.store.agents[a].status == AgentState.Pending;
      schedule := PendingGoesWrong(l, y, i, h, a);
    }
  }

  /**
   * When a cascade of `h` has taken its list: in every continuation, from the moment it has ended well no agent of
   * `h` is active or expired, iff at that point no row of `h` is pending and no registration under `h` stands
   * between its host check and its insert.
   */
  lemma HostInvariantSurvivesExactlyWhen(l: Lifetimes, y: System, i: nat, h: nat)
    requires JustListed(y, i, h) && h < |y.store.hosts| && y.store.hosts[h] == HostState.Revoked
    ensures (forall schedule: seq<Action>, n: nat :: n <= |schedule| ==> LeavesNoneUsable(l, y, schedule, n, i, h))
            <==> Settled(y, h)
  {
    if Settled(y, h) {
      forall schedule: seq<Action>, n: nat | n <= |schedule| ensures LeavesNoneUsable(l, y, schedule, n, i, h) {
        SettledLeavesNoneUsable(l, y, schedule, n, i, h);
      }
    } else {
      var schedule := UnsettledGoesWrong(l, y, i, h);
      assert !LeavesNoneUsable(l, y, schedule, |schedule|, i, h);
    }
  }

  /** A revocation that lists has revoked its host, in every state of every schedule that starts without requests. */
  ghost predicate ListsOnlyRevoked(y: System) {
    forall j :: 0 <= j < |y.requests| && y.requests[j].RevokeHost?
                && (y.requests[j].hostRevocation.ListAgents? || y.requests[j].hostRevocation.Cascade?) ==>
      y.requests[j].hostId < |y.store.hosts| && y.store.hosts[y.requests[j].hostId] == HostState.Revoked
  }

  lemma ListsOnlyRevokedNext(l: Lifetimes, y: System, action: Action)
    requires ListsOnlyRevoked(y)
    ensures ListsOnlyRevoked(Next(l, y, action))
  {
    NextAdvances(l, y, action);
  }

  lemma {:induction false} ListsOnlyRevokedAlong(l: Lifetimes, start: System, schedule: seq<Action>, n: nat)
    requires n <= |schedule| && start.requests == []
    ensures ListsOnlyRevoked(After(l, start, schedule, n))
  {
    if n > 0 {
      ListsOnlyRevokedAlong(l, start, schedule, n - 1);
      ListsOnlyRevokedNext(l, After(l, start, schedule, n - 1), schedule[n - 1]);
    }
  }

  // ---------------------------------------------------------------- when the absolute clock is kept

  /**
   * The reactivation will write "no clock" over the clock of `a`, or may still come to it. While `a` is active it
   * comes to it only through a move to `expired`, which the tables allow and no operation of the service makes.
   */
  predicate Erases(r: Request, a: nat, status: AgentState) {
    && r.Reactivate? && r.agentId == a
    && (r.reactivation == StampAgain(None) || (r.reactivation == ActivateAgain(None) && AgentMoves(status) != {}))
  }

  ghost predicate HasClock(y: System, a: nat, x: int) {
    a < |y.store.agents| && y.store.agents[a].clocks.absolute == Some(x)
  }

  /** The clock of `a` is `x`, it is the only one around, and nobody is about to erase it. */
  ghost predicate ClockIsSafe(y: System, a: nat, x: int) {
    && HasClock(y, a, x)
    && forall i :: 0 <= i < |y.requests| ==>
         Only(y.requests[i], a, x) && !Erases(y.requests[i], a, y.store.agents[a].status)
  }

  lemma CallKeepsSafe(l: Lifetimes, s: Store, r: Request, a: nat, x: int, now: int, pass: bool)
    requires a < |s.agents| && s.agents[a].clocks.absolute == Some(x)
    requires Only(r, a, x) && !Erases(r, a, s.agents[a].status)
    ensures var (after, next) := CallOf(l, s, r, now, pass);
            && a < |after.agents| && after.agents[a].clocks.absolute == Some(x)
            && Only(next, a, x) && !Erases(next, a, after.agents[a].status)
            && (AgentMoves(s.agents[a].status) == {} ==> AgentMoves(after.agents[a].status) == {})
  {
  }

  lemma ClockStaysSafe(l: Lifetimes, y: System, action: Action, a: nat, x: int)
    requires ClockIsSafe(y, a, x)
    ensures ClockIsSafe(Next(l, y, action), a, x)
  {
    if action.Call? && action.index < |y.requests| {
      CallKeepsSafe(l, y.store, y.requests[action.index], a, x, action.now, action.pass);
    }
  }

  lemma {:induction false} ClockIsSafeAlong(l: Lifetimes, y: System, schedule: seq<Action>, n: nat, a: nat, x: int)
    requires n <= |schedule| && ClockIsSafe(y, a, x)
    ensures ClockIsSafe(After(l, y, schedule, n), a, x)
  {
    if n > 0 {
      ClockIsSafeAlong(l, y, schedule, n - 1, a, x);
      ClockStaysSafe(l, After(l, y, schedule, n - 1), schedule[n - 1], a, x);
    }
  }

  /** What the eraser does next, once the agent has been moved out of `active`. */
  function Erasure(y: System, j: nat, a: nat): seq<Action>
    requires j < |y.requests| && y.requests[j].Reactivate? && a < |y.store.agents|
  {
    if y.requests[j].reactivation == StampAgain(None) then Calls(j, 0, 1)
    else if y.store.agents[a].status == AgentState.Active then [Settle(a, AgentState.Expired)] + Calls(j, 0, 2)
    else Calls(j, 0, 2)
  }

  lemma EraserErases(l: Lifetimes, y: System, j: nat, a: nat)
    requires j < |y.requests| && a < |y.store.agents| && Erases(y.requests[j], a, y.store.agents[a].status)
    ensures var schedule := Erasure(y, j, a);
            var after := After(l, y, schedule, |schedule|);
            a < |after.store.agents| && after.store.agents[a].clocks.absolute == None
  {
    var schedule, hostId := Erasure(y, j, a), y.requests[j].hostId;
    if y.requests[j].reactivation == StampAgain(None) {
      assert After(l, y, schedule, 0) == y;
    } else if y.store.agents[a].status == AgentState.Active {
      var expired := After(l, y, schedule, 1);
      assert After(l, y, schedule, 0) == y;
      assert expired.requests == y.requests && expired.store.agents[a].status == AgentState.Expired;
      var active := After(l, y, schedule, 2);
      assert active.requests[j] == Reactivate(hostId, a, StampAgain(None)) && a < |active.store.agents|;
    } else {
      assert After(l, y, schedule, 0) == y;
      var active := After(l, y, schedule, 1);
      assert active.requests[j] == Reactivate(hostId, a, StampAgain(None)) && a < |active.store.agents|;
    }
  }

  /**
   * Once an agent has an absolute clock: it is the same in every later state of every schedule iff no reactivation
   * that found the row before it was stamped is still on its way to stamping it. (`OneClock` holds in every state
   * of every schedule that starts without requests.)
   */
  lemma ClockIsKeptExactlyWhen(l: Lifetimes, y: System, a: nat, x: int)
    requires OneClock(y) && HasClock(y, a, x)
    ensures (forall schedule: seq<Action>, n: nat :: n <= |schedule| ==> HasClock(After(l, y, schedule, n), a, x))
            <==> forall i :: 0 <= i < |y.requests| ==> !Erases(y.requests[i], a, y.store.agents[a].status)
  {
    if i :| 0 <= i < |y.requests| && Erases(y.requests[i], a, y.store.agents[a].status) {
      EraserErases(l, y, i, a);
      var schedule := Erasure(y, i, a);
      assert !HasClock(After(l, y, schedule, |schedule|), a, x);
    } else {
      forall i | 0 <= i < |y.requests| ensures Only(y.requests[i], a, x) {
        assert Fits(y.store, y.requests[i]);
      }
      forall schedule: seq<Action>, n: nat | n <= |schedule| ensures HasClock(After(l, y, schedule, n), a, x) {
        ClockIsSafeAlong(l, y, schedule, n, a, x);
      }
    }
  }

  /**
   * The request will stamp an absolute clock on `a`, or may still come to it; while `a` is active, again only
   * through a move to `expired` that no operation of the service makes.
   */
  predicate Brings(r: Request, a: nat, status: AgentState) {
    match r
    case Register(_, StampNew(id)) => id == a
    case Register(_, ActivateNew(id)) => id == a && AgentMoves(status) != {}
    case Reactivate(_, id, StampAgain(absolute)) => id == a && absolute.Some?
    case Reactivate(_, id, ActivateAgain(absolute)) => id == a && absolute.Some? && AgentMoves(status) != {}
    case _ => false
  }

  ghost predicate HasNoClock(y: System, a: nat) {
    a < |y.store.agents| && y.store.agents[a].clocks.absolute == None
  }

  ghost predicate StaysUnclocked(y: System, a: nat) {
    HasNoClock(y, a) && forall i :: 0 <= i < |y.requests| ==> !Brings(y.requests[i], a, y.store.agents[a].status)
  }

  lemma CallKeepsUnclocked(l: Lifetimes, s: Store, r: Request, a: nat, now: int, pass: bool)
    requires a < |s.agents| && s.agents[a].clocks.absolute == None && !Brings(r, a, s.agents[a].status)
    ensures var (after, next) := CallOf(l, s, r, now, pass);
            && a < |after.agents| && after.agents[a].clocks.absolute == None
            && !Brings(next, a, after.agents[a].status)
            && (AgentMoves(s.agents[a].status) == {} ==> AgentMoves(after.agents[a].status) == {})
  {
  }

  lemma UnclockedNext(l: Lifetimes, y: System, action: Action, a: nat)
    requires StaysUnclocked(y, a)
    ensures StaysUnclocked(Next(l, y, action), a)
  {
    if action.Call? && action.index < |y.requests| {
      CallKeepsUnclocked(l, y.store, y.requests[action.index], a, action.now, action.pass);
    }
  }

  lemma {:induction false} UnclockedAlong(l: Lifetimes, y: System, schedule: seq<Action>, n: nat, a: nat)
    requires n <= |schedule| && StaysUnclocked(y, a)
    ensures StaysUnclocked(After(l, y, schedule, n), a)
  {
    if n > 0 {
      UnclockedAlong(l, y, schedule, n - 1, a);
      UnclockedNext(l, After(l, y, schedule, n - 1), schedule[n - 1], a);
    }
  }

  predicate AtStamp(r: Request) {
    (r.Register? && r.registration.StampNew?) || (r.Reactivate? && r.reactivation.StampAgain?)
  }

  /** What brings the clock, once the agent has been moved out of `active`. */
  function Stamping(y: System, j: nat, a: nat): seq<Action>
    requires j < |y.requests| && a < |y.store.agents|
  {
    if AtStamp(y.requests[j]) then Calls(j, 0, 1)
    else if y.store.agents[a].status == AgentState.Active then [Settle(a, AgentState.Expired)] + Calls(j, 0, 2)
    else Calls(j, 0, 2)
  }

  lemma ClockComes(l: Lifetimes, y: System, j: nat, a: nat)
    requires j < |y.requests| && a < |y.store.agents| && Brings(y.requests[j], a, y.store.agents[a].status)
    ensures !HasNoClock(After(l, y, Stamping(y, j, a), |Stamping(y, j, a)|), a)
  {
    var schedule := Stamping(y, j, a);
    assert After(l, y, schedule, 0) == y;
    if !AtStamp(y.requests[j]) {
      var k := |schedule| - 2;
      var ready := After(l, y, schedule, k);
      assert ready.requests == y.requests && a < |ready.store.agents|;
      assert ready.store.agents[a].status in {AgentState.Pending, AgentState.Expired};
      var active := After(l, y, schedule, k + 1);
      assert AtStamp(active.requests[j]) && Brings(active.requests[j], a, AgentState.Active);
      assert a < |active.store.agents|;
    }
  }

  /**
   * An agent without an absolute clock remains without one in every later state of every schedule iff neither its
   * own registration nor a reactivation that remembers a clock can still reach its stamp.
   */
  lemma ClockStaysAwayExactlyWhen(l: Lifetimes, y: System, a: nat)
    requires HasNoClock(y, a)
    ensures (forall schedule: seq<Action>, n: nat :: n <= |schedule| ==> HasNoClock(After(l, y, schedule, n), a))
            <==> forall i :: 0 <= i < |y.requests| ==> !Brings(y.requests[i], a, y.store.agents[a].status)
  {
    if i :| 0 <= i < |y.requests| && Brings(y.requests[i], a, y.store.agents[a].status) {
      ClockComes(l, y, i, a);
      var schedule := Stamping(y, i, a);
      assert !HasNoClock(After(l, y, schedule, |schedule|), a);
    } else {
      forall schedule: seq<Action>, n: nat | n <= |schedule| ensures HasNoClock(After(l, y, schedule, n), a) {
        UnclockedAlong(l, y, schedule, n, a);
      }
    }
  }

  // ---------------------------------------------------------------- a login past its reads

  predicate PastReads(at: Login) {
    !at.ReadAgent? && !at.Verify? && !at.ReadHost?
  }

  /** The login after the calls of request `i` among the first `n` actions, with no tables to look at. */
  function Resumed(subject: nat, at: Login, schedule: seq<Action>, n: nat, i: nat): Login
    requires n <= |schedule|
  {
    if n == 0 then at
    else
      var before, action := Resumed(subject, at, schedule, n - 1, i), schedule[n - 1];
      if action.Call? && action.index == i then LogInStep(Store([], []), subject, before, action.now, action.pass)
      else before
  }

  /** Past its host read a login is decided by its snapshots and its own checks, whatever else happens to the tables. */
  lemma {:induction false} DecidedBySnapshots(l: Lifetimes, y: System, schedule: seq<Action>, n: nat, i: nat)
    requires n <= |schedule| && i < |y.requests| && y.requests[i].LogIn? && PastReads(y.requests[i].login)
    ensures var after, r := After(l, y, schedule, n), y.requests[i];
            && i < |after.requests| && PastReads(Resumed(r.subject, r.login, schedule, n, i))
            && after.requests[i] == r.(login := Resumed(r.subject, r.login, schedule, n, i))
  {
    if n > 0 {
      DecidedBySnapshots(l, y, schedule, n - 1, i);
      NextAdvances(l, After(l, y, schedule, n - 1), schedule[n - 1]);
    }
  }

  // ---------------------------------------------------------------- what interleaving does break

  /** A registration that checked its host before the host was revoked, and made its row after the cascade. */
  function LateRegistration(): (System, seq<Action>) {
    (System(Store([HostState.Active], []), [Register(0, CheckHost), RevokeHost(0, FindHostRow)]),
     [Call(0, 0, true), Call(1, 0, true), Call(1, 0, true), Call(1, 0, true), Call(1, 0, true),
      Call(0, 0, true), Call(0, 0, true), Call(0, 0, true)])
  }

  function LateAgent(l: Lifetimes): Agent {
    Agent(0, AgentState.Active, Identity.Stamped(l, 0, Some(l.absolute * MILLIS)))
  }

  lemma LateRegistrationRevokes(l: Lifetimes)
    ensures var (start, schedule) := LateRegistration();
            After(l, start, schedule, 5) ==
            System(Store([HostState.Revoked], []), [Register(0, CreateAgent), RevokeHost(0, HostRevoked)])
  {
    var (start, schedule) := LateRegistration();
    var revoked := Store([HostState.Revoked], []);
    assert After(l, start, schedule, 1) == System(start.store, [Register(0, CreateAgent), RevokeHost(0, FindHostRow)]);
    assert After(l, start, schedule, 3) == System(revoked, [Register(0, CreateAgent), RevokeHost(0, ListAgents)]);
    assert After(l, start, schedule, 4) == System(revoked, [Register(0, CreateAgent), RevokeHost(0, Cascade([], []))]);
  }

  lemma LateRegistrationEnds(l: Lifetimes)
    ensures var (start, schedule) := LateRegistration();
            After(l, start, schedule, 8) ==
            System(Store([HostState.Revoked], [LateAgent(l)]), [Register(0, Registered(0)), RevokeHost(0, HostRevoked)])
  {
    var (start, schedule) := LateRegistration();
    LateRegistrationRevokes(l);
    var revoked := Store([HostState.Revoked], []);
    var created := revoked.(agents := [Agent(0, AgentState.Pending, NOT_STAMPED)]);
    assert After(l, start, schedule, 6) == System(created, [Register(0, ActivateNew(0)), RevokeHost(0, HostRevoked)]);
    var active := revoked.(agents := [Agent(0, AgentState.Active, NOT_STAMPED)]);
    assert After(l, start, schedule, 7) == System(active, [Register(0, StampNew(0)), RevokeHost(0, HostRevoked)]);
    assert ApplyLifetimes(active, 0, LateAgent(l).clocks).agents == [LateAgent(l)];
  }

  /**
   * The host invariant of the atomic operations does not survive: both requests end well and an active agent
   * remains under a revoked host, which introspection keeps calling active for as long as its session lasts.
   */
  lemma ActiveAgentUnderRevokedHost(l: Lifetimes)
    ensures var (start, schedule) := LateRegistration();
            var end := After(l, start, schedule, 8);
            && |schedule| == 8 && Identity.HostInvariant(start.store) && !Identity.HostInvariant(end.store)
            && end.requests == [Register(0, Registered(0)), RevokeHost(0, HostRevoked)]
            && (l.session > 0 ==> Identity.Introspection(end.store, Identity.GoodToken(0), 0))
            && CheckAgent(end.store, 0, 0) == Some(HostNotActive(HostState.Revoked))
  {
    LateRegistrationEnds(l);
    var (start, schedule) := LateRegistration();
    assert After(l, start, schedule, 8).store.agents[0].hostId == 0;
  }

  /** Two agents; the first revokes itself between the list and the cascade of the host's revocation. */
  function RacingCascade(clocks: Clocks): (System, seq<Action>) {
    var agent := Agent(0, AgentState.Active, clocks);
    (System(Store([HostState.Active], [agent, agent]), [RevokeHost(0, FindHostRow), Revoke(0, 0, FindOwn)]),
     [Call(0, 0, true), Call(0, 0, true), Call(0, 0, true), Call(1, 0, true), Call(1, 0, true), Call(0, 0, true)])
  }

  lemma ListsTwo(agents: seq<Agent>)
    requires |agents| == 2 && agents[0].hostId == agents[1].hostId == 0
    ensures Listed(agents, 0, 0) == [0, 1]
  {
    assert Listed(agents, 0, 2) == [];
    assert Listed(agents, 0, 1) == [1];
  }

  lemma ListsOne(agent: Agent)
    requires agent.hostId == 0
    ensures Listed([agent], 0, 0) == [0]
  {
    assert Listed([agent], 0, 1) == [];
  }

  lemma RacingCascadeLists(l: Lifetimes, clocks: Clocks)
    ensures var (start, schedule) := RacingCascade(clocks);
            After(l, start, schedule, 3) ==
            System(Store([HostState.Revoked], start.store.agents),
                   [RevokeHost(0, Cascade([0, 1], start.store.agents)), Revoke(0, 0, FindOwn)])
  {
    var (start, schedule) := RacingCascade(clocks);
    var revoked := Store([HostState.Revoked], start.store.agents);
    assert After(l, start, schedule, 1) == start.(requests := [RevokeHost(0, RevokeHostRow), Revoke(0, 0, FindOwn)]);
    assert After(l, start, schedule, 2) == System(revoked, [RevokeHost(0, ListAgents), Revoke(0, 0, FindOwn)]);
    ListsTwo(start.store.agents);
  }

  /**
   * The cascade stops at the first agent that someone else revoked meanwhile: the request fails after the host
   * is revoked, the second agent keeps its status, and asking again is answered "done" without a cascade.
   */
  lemma CascadeStopsEarly(l: Lifetimes, clocks: Clocks)
    ensures var (start, schedule) := RacingCascade(clocks);
            var end := After(l, start, schedule, 6);
            && |schedule| == 6
            && end.requests == [RevokeHost(0, HostNotRevoked(InvalidRequest)), Revoke(0, 0, AgentRevoked)]
            && end.store.hosts == [HostState.Revoked] && |end.store.agents| == 2
            && end.store.agents[1].status == AgentState.Active
            && RevokeHostStep(end.store, 0, FindHostRow) == (end.store, HostRevoked)
  {
    var (start, schedule) := RacingCascade(clocks);
    RacingCascadeLists(l, clocks);
    var revoked := Store([HostState.Revoked], start.store.agents);
    assert After(l, start, schedule, 4) ==
           System(revoked, [RevokeHost(0, Cascade([0, 1], start.store.agents)), Revoke(0, 0, RevokeRow)]);
    var agents := start.store.agents[0 := Agent(0, AgentState.Revoked, clocks)];
    assert After(l, start, schedule, 5) ==
           System(Store(revoked.hosts, agents),
                  [RevokeHost(0, Cascade([0, 1], start.store.agents)), Revoke(0, 0, AgentRevoked)]);
  }

  /** A login that made both reads before the revocation. */
  function EarlyReader(clocks: Clocks): (System, seq<Action>) {
    var agent := Agent(0, AgentState.Active, clocks);
    (System(Store([HostState.Active], [agent]), [LogIn(0, ReadAgent), RevokeHost(0, FindHostRow)]),
     [Call(0, 0, true), Call(0, 0, true), Call(0, 0, true),
      Call(1, 0, true), Call(1, 0, true), Call(1, 0, true), Call(1, 0, true), Call(1, 0, true),
      Call(0, 0, true), Call(0, 0, true), Call(0, 0, true)])
  }

  lemma EarlyReaderReads(l: Lifetimes, clocks: Clocks)
    ensures var (start, schedule) := EarlyReader(clocks);
            After(l, start, schedule, 3) ==
            start.(requests :=
                     [LogIn(0, Claims(start.store.agents[0], Some(HostState.Active))), RevokeHost(0, FindHostRow)])
  {
    var (start, schedule) := EarlyReader(clocks);
    var agent := start.store.agents[0];
    assert After(l, start, schedule, 1) == start.(requests := [LogIn(0, Verify(agent)), RevokeHost(0, FindHostRow)]);
    assert After(l, start, schedule, 2) == start.(requests := [LogIn(0, ReadHost(agent)), RevokeHost(0, FindHostRow)]);
  }

  lemma EarlyReaderRevokes(l: Lifetimes, clocks: Clocks)
    ensures var (start, schedule) := EarlyReader(clocks);
            var agent := start.store.agents[0];
            After(l, start, schedule, 5) ==
            System(Store([HostState.Revoked], [agent]),
                   [LogIn(0, Claims(agent, Some(HostState.Active))), RevokeHost(0, ListAgents)])
  {
    var (start, schedule) := EarlyReader(clocks);
    EarlyReaderReads(l, clocks);
    var login := LogIn(0, Claims(start.store.agents[0], Some(HostState.Active)));
    assert After(l, start, schedule, 4) == start.(requests := [login, RevokeHost(0, RevokeHostRow)]);
  }

  lemma EarlyReaderSeesCascade(l: Lifetimes, clocks: Clocks)
    ensures var (start, schedule) := EarlyReader(clocks);
            var agent := start.store.agents[0];
            After(l, start, schedule, 6) ==
            System(Store([HostState.Revoked], [agent]),
                   [LogIn(0, Claims(agent, Some(HostState.Active))), RevokeHost(0, Cascade([0], [agent]))])
  {
    var (start, schedule) := EarlyReader(clocks);
    EarlyReaderRevokes(l, clocks);
    ListsOne(start.store.agents[0]);
  }

  lemma EarlyReaderIsOvertaken(l: Lifetimes, clocks: Clocks)
    ensures var (start, schedule) := EarlyReader(clocks);
            var agent := start.store.agents[0];
            After(l, start, schedule, 8) ==
            System(Store([HostState.Revoked], [agent.(status := AgentState.Revoked)]),
                   [LogIn(0, Claims(agent, Some(HostState.Active))), RevokeHost(0, HostRevoked)])
  {
    var (start, schedule) := EarlyReader(clocks);
    EarlyReaderSeesCascade(l, clocks);
    var agent := start.store.agents[0];
    var login := LogIn(0, Claims(agent, Some(HostState.Active)));
    var list: seq<nat>, none: seq<nat> := [0], [];
    assert list[1..] == none;
    assert [agent][0 := agent.(status := AgentState.Revoked)] == [agent.(status := AgentState.Revoked)];
    assert After(l, start, schedule, 7) ==
           System(Store([HostState.Revoked], [agent.(status := AgentState.Revoked)]),
                  [login, RevokeHost(0, Cascade(none, [agent]))]);
  }

  /** So the premise of `HostRevocationIsSafe` is needed: such a login is accepted after the cascade has ended. */
  lemma AcceptedAfterRevocation(l: Lifetimes)
    ensures var (start, schedule) := EarlyReader(NOT_STAMPED);
            var end := After(l, start, schedule, 11);
            && |schedule| == 11
            && end.store.hosts == [HostState.Revoked]
            && end.requests == [LogIn(0, Accepted(start.store.agents[0])), RevokeHost(0, HostRevoked)]
  {
    var (start, schedule) := EarlyReader(NOT_STAMPED);
    EarlyReaderIsOvertaken(l, NOT_STAMPED);
    var agent := start.store.agents[0];
    var end := Store([HostState.Revoked], [agent.(status := AgentState.Revoked)]);
    assert After(l, start, schedule, 9) ==
           System(end, [LogIn(0, State(agent, Some(HostState.Active))), RevokeHost(0, HostRevoked)]);
    assert After(l, start, schedule, 10) == System(end, [LogIn(0, Capability(agent)), RevokeHost(0, HostRevoked)]);
  }

  /** A reactivation slips in between the two calls with which a registration makes and activates its row. */
  function ReactivationDuringRegistration(): (System, seq<Action>) {
    (System(Store([HostState.Active], []), [Register(0, CheckHost), Reactivate(0, 0, FindAgentRow)]),
     [Call(0, 0, true), Call(0, 0, true), Call(1, 0, true), Call(1, 0, true), Call(0, 0, true), Call(1, 0, true)])
  }

  lemma RegistrationIsOvertaken(l: Lifetimes)
    ensures var (start, schedule) := ReactivationDuringRegistration();
            After(l, start, schedule, 4) ==
            System(start.store.(agents := [Agent(0, AgentState.Active, NOT_STAMPED)]),
                   [Register(0, ActivateNew(0)), Reactivate(0, 0, StampAgain(None))])
  {
    var (start, schedule) := ReactivationDuringRegistration();
    var created := start.store.(agents := [Agent(0, AgentState.Pending, NOT_STAMPED)]);
    assert After(l, start, schedule, 1) ==
           start.(requests := [Register(0, CreateAgent), Reactivate(0, 0, FindAgentRow)]);
    assert After(l, start, schedule, 2) ==
           System(created, [Register(0, ActivateNew(0)), Reactivate(0, 0, FindAgentRow)]);
    assert After(l, start, schedule, 3) ==
           System(created, [Register(0, ActivateNew(0)), Reactivate(0, 0, ActivateAgain(None))]);
  }

  /** And it may take none: the registration fails, the agent is active, and no absolute clock bounds it. */
  lemma AgentWithoutAbsoluteClock(l: Lifetimes)
    ensures var (start, schedule) := ReactivationDuringRegistration();
            var end := After(l, start, schedule, 6);
            && |schedule| == 6 && end.requests == [Register(0, NotRegistered), Reactivate(0, 0, Reactivated)]
            && |end.store.agents| == 1 && end.store.agents[0].clocks.absolute == None
            && (forall now: int :: CheckAgent(end.store, 0, now) != Some(AbsoluteExceeded))
            && CheckAgent(end.store, 0, 0) == None
  {
    var (start, schedule) := ReactivationDuringRegistration();
    RegistrationIsOvertaken(l);
    var active := start.store.(agents := [Agent(0, AgentState.Active, NOT_STAMPED)]);
    assert After(l, start, schedule, 5) ==
           System(active, [Register(0, NotRegistered), Reactivate(0, 0, StampAgain(None))]);
  }
}
