/** Hosts, agents, their transition tables and the state check that every authenticated request passes. */
module Lifecycle {
  import opened Common

  datatype HostState = Pending | Active | Revoked | Rejected

  datatype AgentState = Pending | Active | Expired | Revoked | Rejected | Claimed

  function HostMoves(from: HostState): set<HostState> {
    match from
    case Pending => {HostState.Active, HostState.Rejected}
    case Active => {HostState.Revoked}
    case Revoked => {}
    case Rejected => {}
  }

  function AgentMoves(from: AgentState): set<AgentState> {
    match from
    case Pending => {AgentState.Active, AgentState.Rejected}
    case Active => {AgentState.Expired, AgentState.Revoked, AgentState.Claimed}
    case Expired => {AgentState.Active, AgentState.Revoked}
    case Revoked => {}
    case Rejected => {}
    case Claimed => {}
  }

  /** Instants in milliseconds; `None` until the clocks are stamped. */
  datatype Clocks = Clocks(activated: Option<int>, session: Option<int>, maximum: Option<int>, absolute: Option<int>)

  const NOT_STAMPED := Clocks(None, None, None, None)

  datatype Agent = Agent(hostId: nat, status: AgentState, clocks: Clocks)

  /** Rows are never deleted, so a row's id is its position in the table. */
  datatype Store = Store(hosts: seq<HostState>, agents: seq<Agent>)

  datatype Error = HostNotFound | HostPending | AgentNotFound | Unauthorized | InvalidRequest

  // ---------------------------------------------------------------- the state machine's two transactions

  function TransitionHost(s: Store, id: nat, to: HostState): Result<Store, Error> {
    if id >= |s.hosts| then Err(HostNotFound)
    else if to !in HostMoves(s.hosts[id]) then Err(InvalidRequest)
    else Ok(s.(hosts := s.hosts[id := to]))
  }

  function TransitionAgent(s: Store, id: nat, to: AgentState): Result<Store, Error> {
    if id >= |s.agents| then Err(AgentNotFound)
    else if to !in AgentMoves(s.agents[id].status) then Err(InvalidRequest)
    else Ok(s.(agents := s.agents[id := s.agents[id].(status := to)]))
  }

  function ApplyLifetimes(s: Store, id: nat, clocks: Clocks): Store
    requires id < |s.agents|
  {
    s.(agents := s.agents[id := s.agents[id].(clocks := clocks)])
  }

  // ---------------------------------------------------------------- the state check

  datatype Kind = HostToken | AgentToken

  datatype Refusal =
    | HostUnresolved
    | HostNotActive(state: HostState)
    | AgentUnresolved
    | AgentNotActive(status: AgentState)
    | AbsoluteExceeded
    | MaximumExceeded
    | SessionExpired

  predicate Elapsed(clock: Option<int>, now: int) {
    clock.Some? && now > clock.value
  }

  /** `None` means the request goes on. */
  function StateCheck(kind: Kind, host: Option<HostState>, agent: Option<Agent>, now: int): Option<Refusal> {
    if host.None? then Some(HostUnresolved)
    else if host.value != HostState.Active then Some(HostNotActive(host.value))
    else if kind == HostToken then None
    else if agent.None? then Some(AgentUnresolved)
    else if agent.value.status != AgentState.Active then Some(AgentNotActive(agent.value.status))
    else if Elapsed(agent.value.clocks.absolute, now) then Some(AbsoluteExceeded)
    else if Elapsed(agent.value.clocks.maximum, now) then Some(MaximumExceeded)
    else if Elapsed(agent.value.clocks.session, now) then Some(SessionExpired)
    else None
  }

  function FindAgent(s: Store, id: nat): Option<Agent> {
    if id < |s.agents| then Some(s.agents[id]) else None
  }

  function FindHost(s: Store, id: nat): Option<HostState> {
    if id < |s.hosts| then Some(s.hosts[id]) else None
  }

  /** A clock that is not stamped holds nobody back; one that is counts up to and including its instant. */
  predicate Within(clock: Option<int>, now: int) {
    clock.None? || now <= clock.value
  }

  /**
   * Who passes, and why another does not: the host's status comes before everything, for either kind of token, and an
   * agent's status before its clocks, the absolute one first and the session last.
   */
  lemma StateCheckDecides(kind: Kind, host: HostState, agent: Agent, now: int)
    ensures var r, clocks := StateCheck(kind, Some(host), Some(agent), now), agent.clocks;
            && (forall state :: r == Some(HostNotActive(state)) <==> host == state && state != HostState.Active)
            && (host == HostState.Active && kind == HostToken ==> r.None?)
            && (host == HostState.Active && kind == AgentToken ==>
                  && (forall status ::
                        r == Some(AgentNotActive(status)) <==> agent.status == status && status != AgentState.Active)
                  && (agent.status == AgentState.Active ==>
                        && (r == Some(AbsoluteExceeded) <==> !Within(clocks.absolute, now))
                        && (r == Some(MaximumExceeded) <==>
                              Within(clocks.absolute, now) && !Within(clocks.maximum, now))
                        && (r == Some(SessionExpired) <==>
                              && Within(clocks.absolute, now) && Within(clocks.maximum, now)
                              && !Within(clocks.session, now))
                        && (r.None? <==>
                              && Within(clocks.absolute, now) && Within(clocks.maximum, now)
                              && Within(clocks.session, now))))
  {
  }

  /** The check on what the signature stage resolves for an agent token with this subject. */
  function CheckAgent(s: Store, id: nat, now: int): Option<Refusal> {
    var agent := FindAgent(s, id);
    StateCheck(AgentToken, if agent.Some? then FindHost(s, agent.value.hostId) else None, agent, now)
  }
}
