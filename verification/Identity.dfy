/**
 * The identity service with its operations atomic: registration, revocation, reactivation, the cascade of a
 * host revocation, and introspection (RFC 7662, section 2.2). One clock reading per operation.
 *
 * Besides the operations of the service, a run may contain the other moves of the transition tables
 * (a host approved or rejected, an agent expired, claimed or rejected), which the state machine sanctions
 * although no operation here asks for them, and hosts being added in any state.
 */
module Identity {
  import opened Common
  import opened Lifecycle

  /** Seconds. */
  datatype Lifetimes = Lifetimes(session: nat, maximum: nat, absolute: nat)

  function Stamped(l: Lifetimes, now: int, absolute: Option<int>): Clocks {
    Clocks(Some(now), Some(now + l.session * MILLIS), Some(now + l.maximum * MILLIS), absolute)
  }

  // ---------------------------------------------------------------- what each operation does

  function Register(l: Lifetimes, s: Store, hostId: nat, now: int): Result<Store, Error> {
    if hostId >= |s.hosts| then Err(HostNotFound)
    else if s.hosts[hostId] != HostState.Active then Err(HostPending)
    else
      var clocks := Stamped(l, now, Some(now + l.absolute * MILLIS));
      Ok(s.(agents := s.agents + [Agent(hostId, AgentState.Active, clocks)]))
  }

  function Revoke(s: Store, hostId: nat, agentId: nat): Result<Store, Error> {
    if agentId >= |s.agents| then Err(AgentNotFound)
    else if s.agents[agentId].hostId != hostId then Err(Unauthorized)
    else if s.agents[agentId].status == AgentState.Revoked then Ok(s)
    else TransitionAgent(s, agentId, AgentState.Revoked)
  }

  /** The host's own status is not looked at. */
  function Reactivate(l: Lifetimes, s: Store, hostId: nat, agentId: nat, now: int): Result<Store, Error> {
    if agentId >= |s.agents| then Err(AgentNotFound)
    else
      var agent := s.agents[agentId];
      if agent.hostId != hostId then Err(Unauthorized)
      else if agent.clocks.absolute.Some? && agent.clocks.absolute.value <= now then Err(InvalidRequest)
      else if agent.status != AgentState.Pending && agent.status != AgentState.Expired then Err(InvalidRequest)
      else
        var clocks := Stamped(l, now, agent.clocks.absolute);
        Ok(s.(agents := s.agents[agentId := Agent(hostId, AgentState.Active, clocks)]))
  }

  predicate Usable(status: AgentState) {
    status == AgentState.Active || status == AgentState.Expired
  }

  /** What the cascade of a host revocation makes of one agent. */
  function Cascaded(agent: Agent, hostId: nat): Agent {
    if agent.hostId == hostId && Usable(agent.status) then agent.(status := AgentState.Revoked) else agent
  }

  function RevokeHost(s: Store, hostId: nat): Result<Store, Error> {
    if hostId >= |s.hosts| then Err(HostNotFound)
    else if s.hosts[hostId] == HostState.Revoked then Ok(s)
    else if s.hosts[hostId] != HostState.Active then Err(InvalidRequest)
    else
      var agents := seq(|s.agents|, i requires 0 <= i < |s.agents| => Cascaded(s.agents[i], hostId));
      Ok(Store(s.hosts[hostId := HostState.Revoked], agents))
  }

  /** A bearer token as introspection sees it: `genuine` covers its type, subject claim, key and signature. */
  datatype Token = Token(genuine: bool, subject: nat, forUs: bool, expires: Option<int>)

  /** Does introspection call the token active? */
  function Introspection(s: Store, token: Token, now: int): bool {
    && token.genuine
    && token.forUs
    && token.subject < |s.agents|
    && (token.expires.Some? ==> token.expires.value > now / MILLIS)
    && s.agents[token.subject].status == AgentState.Active
    && (var session := s.agents[token.subject].clocks.session; session.Some? ==> session.value > now)
  }

  // ---------------------------------------------------------------- the service

  class IdentityService {
    const lifetimes: Lifetimes
    var hosts: seq<HostState>
    var agents: seq<Agent>

    ghost function Contents(): Store
      reads this
    {
      Store(hosts, agents)
    }

    /** The operation ended as `outcome` says: its new state, or its error and the old state. */
    ghost predicate EndsAs(outcome: Result<Store, Error>, before: Store, error: Option<Error>)
      reads this
    {
      match outcome
      case Ok(after) => error.None? && Contents() == after
      case Err(e) => error == Some(e) && Contents() == before
    }

    constructor (lifetimes: Lifetimes)
      ensures this.lifetimes == lifetimes && Contents() == Store([], [])
    {
      this.lifetimes := lifetimes;
      hosts, agents := [], [];
    }

    method MoveAgent(id: nat, to: AgentState) returns (error: Option<Error>)
      modifies this`agents
      ensures EndsAs(TransitionAgent(old(Contents()), id, to), old(Contents()), error)
    {
      if id >= |agents| {
        return Some(AgentNotFound);
      }
      if to !in AgentMoves(agents[id].status) {
        return Some(InvalidRequest);
      }
      agents := agents[id := agents[id].(status := to)];
      return None;
    }

    method MoveHost(id: nat, to: HostState) returns (error: Option<Error>)
      modifies this`hosts
      ensures EndsAs(TransitionHost(old(Contents()), id, to), old(Contents()), error)
    {
      if id >= |hosts| {
        return Some(HostNotFound);
      }
      if to !in HostMoves(hosts[id]) {
        return Some(InvalidRequest);
      }
      hosts := hosts[id := to];
      return None;
    }

    method RegisterAgent(hostId: nat, now: int) returns (id: nat, error: Option<Error>)
      modifies this
      ensures EndsAs(Register(lifetimes, old(Contents()), hostId, now), old(Contents()), error)
      ensures error == Some(HostNotFound) <==> hostId >= old(|hosts|)
      ensures error == Some(HostPending) <==> hostId < old(|hosts|) && old(hosts)[hostId] != HostState.Active
      ensures id == old(|agents|) && (error.None? <==> |agents| == id + 1)
    {
      id := |agents|;
      if hostId >= |hosts| {
        return id, Some(HostNotFound);
      }
      if hosts[hostId] != HostState.Active {
        return id, Some(HostPending);
      }
      agents := agents + [Agent(hostId, AgentState.Pending, NOT_STAMPED)];
      error := MoveAgent(id, AgentState.Active);
      var clocks := Stamped(lifetimes, now, Some(now + lifetimes.absolute * MILLIS));
      agents := agents[id := agents[id].(clocks := clocks)];
      assert agents == old(agents) + [Agent(hostId, AgentState.Active, clocks)];
    }

    method RevokeAgent(hostId: nat, agentId: nat) returns (error: Option<Error>)
      modifies this
      ensures EndsAs(Revoke(old(Contents()), hostId, agentId), old(Contents()), error)
      ensures error == Some(AgentNotFound) <==> agentId >= old(|agents|)
      ensures error == Some(Unauthorized) <==> agentId < old(|agents|) && old(agents)[agentId].hostId != hostId
      ensures error.None? ==> agents[agentId].status == AgentState.Revoked
    {
      if agentId >= |agents| {
        return Some(AgentNotFound);
      }
      if agents[agentId].hostId != hostId {
        return Some(Unauthorized);
      }
      if agents[agentId].status == AgentState.Revoked {
        return None;
      }
      error := MoveAgent(agentId, AgentState.Revoked);
    }

    method ReactivateAgent(hostId: nat, agentId: nat, now: int) returns (error: Option<Error>)
      modifies this
      ensures EndsAs(Reactivate(lifetimes, old(Contents()), hostId, agentId, now), old(Contents()), error)
      ensures error == Some(AgentNotFound) <==> agentId >= old(|agents|)
      ensures error == Some(Unauthorized) <==> agentId < old(|agents|) && old(agents)[agentId].hostId != hostId
      ensures error.None? ==> agents[agentId].status == AgentState.Active
    {
      if agentId >= |agents| {
        return Some(AgentNotFound);
      }
      var agent := agents[agentId];
      if agent.hostId != hostId {
        return Some(Unauthorized);
      }
      if agent.clocks.absolute.Some? && agent.clocks.absolute.value <= now {
        return Some(InvalidRequest);
      }
      error := MoveAgent(agentId, AgentState.Active);
      if error.None? {
        var clocks := Stamped(lifetimes, now, agent.clocks.absolute);
        agents := agents[agentId := agents[agentId].(clocks := clocks)];
      }
    }

    /** The host's agents, oldest first. */
    method ListByHost(hostId: nat) returns (ids: seq<nat>)
      ensures forall k :: 0 <= k < |ids| ==> ids[k] < |agents| && agents[ids[k]].hostId == hostId
      ensures forall i, k :: 0 <= i < k < |ids| ==> ids[i] < ids[k]
      ensures forall a :: 0 <= a < |agents| && agents[a].hostId == hostId ==> a in ids
    {
      ids := [];
      for a := 0 to |agents|
        invariant forall k :: 0 <= k < |ids| ==> ids[k] < a && agents[ids[k]].hostId == hostId
        invariant forall i, k :: 0 <= i < k < |ids| ==> ids[i] < ids[k]
        invariant forall b :: 0 <= b < a && agents[b].hostId == hostId ==> b in ids
      {
        if agents[a].hostId == hostId {
          ids := ids + [a];
        }
      }
    }

    /** Revoke the host, then every one of its agents that is active or expired. */
    method RevokeHostAndAgents(hostId: nat) returns (error: Option<Error>)
      modifies this
      ensures EndsAs(RevokeHost(old(Contents()), hostId), old(Contents()), error)
      ensures error == Some(HostNotFound) <==> hostId >= old(|hosts|)
      ensures error.None? ==> hosts[hostId] == HostState.Revoked
    {
      if hostId >= |hosts| {
        return Some(HostNotFound);
      }
      if hosts[hostId] == HostState.Revoked {
        return None;
      }
      error := MoveHost(hostId, HostState.Revoked);
      if error.Some? {
        return;
      }
      var before := agents;
      var ids := ListByHost(hostId);
      for k := 0 to |ids|
        invariant error.None? && hosts == old(hosts)[hostId := HostState.Revoked] && |agents| == |before|
        invariant forall a :: 0 <= a < |agents| ==>
                                agents[a] == if a in ids[..k] then Cascaded(before[a], hostId) else before[a]
      {
        if Usable(before[ids[k]].status) {
          error := MoveAgent(ids[k], AgentState.Revoked);
        }
      }
    }

    method Introspect(token: Token, now: int) returns (active: bool)
      ensures active == Introspection(Contents(), token, now)
    {
      if !token.genuine || token.subject >= |agents| {
        return false;
      }
      var agent := agents[token.subject];
      var nowSec := now / MILLIS;
      if || !token.forUs
         || (token.expires.Some? && token.expires.value <= nowSec)
         || agent.status != AgentState.Active
         || (agent.clocks.session.Some? && agent.clocks.session.value <= now)
      {
        return false;
      }
      return true;
    }
  }

  // ---------------------------------------------------------------- runs

  datatype Op =
    | AddHost(state: HostState)
    | SettleHost(host: nat, outcome: HostState)
    | Registration(hostId: nat)
    | Revocation(hostId: nat, agentId: nat)
    | Reactivation(hostId: nat, agentId: nat)
    | HostRevocation(hostId: nat)
    | Settle(agent: nat, to: AgentState)

  datatype Event = Event(op: Op, now: int)

  function OrKeep(outcome: Result<Store, Error>, s: Store): Store {
    if outcome.Ok? then outcome.value else s
  }

  /** Revocations only ever happen through the service. */
  function Step(l: Lifetimes, s: Store, e: Event): Store {
    match e.op
    case AddHost(state) => s.(hosts := s.hosts + [state])
    case SettleHost(host, outcome) =>
      if outcome == HostState.Revoked then s else OrKeep(TransitionHost(s, host, outcome), s)
    case Registration(hostId) => OrKeep(Register(l, s, hostId, e.now), s)
    case Revocation(hostId, agentId) => OrKeep(Revoke(s, hostId, agentId), s)
    case Reactivation(hostId, agentId) => OrKeep(Reactivate(l, s, hostId, agentId, e.now), s)
    case HostRevocation(hostId) => OrKeep(RevokeHost(s, hostId), s)
    case Settle(agent, to) =>
      if to == AgentState.Active || to == AgentState.Revoked then s else OrKeep(TransitionAgent(s, agent, to), s)
  }

  ghost predicate Monotone(events: seq<Event>) {
    forall i, j :: 0 <= i < j < |events| ==> events[i].now <= events[j].now
  }

  /** The tables after the first `n` events. */
  function After(l: Lifetimes, events: seq<Event>, n: nat): Store
    requires n <= |events|
  {
    if n == 0 then Store([], []) else Step(l, After(l, events, n - 1), events[n - 1])
  }

  // ---------------------------------------------------------------- one step

  /** What no operation ever does otherwise: rows stay, keep their host and absolute clock, and move by the tables. */
  ghost predicate Sanctioned(before: Store, after: Store) {
    && |before.hosts| <= |after.hosts| && |before.agents| <= |after.agents|
    && (forall h :: 0 <= h < |before.hosts| ==>
                      after.hosts[h] == before.hosts[h] || after.hosts[h] in HostMoves(before.hosts[h]))
    && (forall a :: 0 <= a < |before.agents| ==>
                      && after.agents[a].hostId == before.agents[a].hostId
                      && after.agents[a].clocks.absolute == before.agents[a].clocks.absolute
                      && (after.agents[a].status == before.agents[a].status
                          || after.agents[a].status in AgentMoves(before.agents[a].status)))
  }

  lemma StepIsSanctioned(l: Lifetimes, s: Store, e: Event)
    ensures Sanctioned(s, Step(l, s, e))
  {
  }

  /** What one event makes of an agent that is there already. */
  lemma StepMovesAgent(l: Lifetimes, s: Store, e: Event, a: nat)
    requires a < |s.agents|
    ensures var agent := s.agents[a];
            Step(l, s, e).agents[a].status ==
            match e.op
            case Revocation(hostId, x) =>
              if x == a && hostId == agent.hostId && Usable(agent.status) then AgentState.Revoked else agent.status
            case HostRevocation(h) =>
              if && h == agent.hostId && h < |s.hosts| && s.hosts[h] == HostState.Active
                 && Usable(agent.status) then AgentState.Revoked else agent.status
            case Reactivation(hostId, x) =>
              if && x == a && hostId == agent.hostId && agent.status in {AgentState.Pending, AgentState.Expired}
                 && (agent.clocks.absolute.Some? ==> e.now < agent.clocks.absolute.value)
              then AgentState.Active else agent.status
            case Settle(x, to) =>
              if x == a && (|| (agent.status == AgentState.Pending && to == AgentState.Rejected)
                            || (agent.status == AgentState.Active && to in {AgentState.Expired, AgentState.Claimed}))
              then to else agent.status
            case _ => agent.status
  {
  }

  /** And of a host. */
  lemma StepMovesHost(l: Lifetimes, s: Store, e: Event, h: nat)
    requires h < |s.hosts|
    ensures Step(l, s, e).hosts[h] ==
            match e.op
            case HostRevocation(x) =>
              if x == h && s.hosts[h] == HostState.Active then HostState.Revoked else s.hosts[h]
            case SettleHost(x, outcome) =>
              if && x == h && s.hosts[h] == HostState.Pending
                 && outcome in {HostState.Active, HostState.Rejected} then outcome else s.hosts[h]
            case _ => s.hosts[h]
  {
  }

  /** An agent appears only by a registration under an active host: the host's, active at once. */
  lemma StepAddsAgent(l: Lifetimes, s: Store, e: Event)
    ensures var after := Step(l, s, e);
            if e.op.Registration? && e.op.hostId < |s.hosts| && s.hosts[e.op.hostId] == HostState.Active
            then
              && |after.agents| == |s.agents| + 1
              && after.agents[|s.agents|].hostId == e.op.hostId
              && after.agents[|s.agents|].status == AgentState.Active
            else |after.agents| == |s.agents|
  {
  }

  /** No more moves. */
  predicate Final(status: AgentState) {
    status == AgentState.Revoked || status == AgentState.Rejected || status == AgentState.Claimed
  }

  lemma {:induction false} RunIsSanctioned(l: Lifetimes, events: seq<Event>, m: nat, n: nat)
    requires m <= n <= |events|
    ensures var before, after := After(l, events, m), After(l, events, n);
            && |before.hosts| <= |after.hosts| && |before.agents| <= |after.agents|
            && (forall h :: 0 <= h < |before.hosts| && before.hosts[h] in {HostState.Revoked, HostState.Rejected} ==>
                              after.hosts[h] == before.hosts[h])
            && (forall a :: 0 <= a < |before.agents| ==>
                              && after.agents[a].hostId == before.agents[a].hostId
                              && after.agents[a].clocks.absolute == before.agents[a].clocks.absolute
                              && (Final(before.agents[a].status) ==>
                                    after.agents[a].status == before.agents[a].status))
  {
    if m < n {
      RunIsSanctioned(l, events, m, n - 1);
      StepIsSanctioned(l, After(l, events, n - 1), events[n - 1]);
    }
  }

  // ---------------------------------------------------------------- the host invariant

  /** Every agent that is active or expired has an active host; the others' hosts may be revoked. */
  ghost predicate HostInvariant(s: Store) {
    forall a :: 0 <= a < |s.agents| ==>
                  && s.agents[a].hostId < |s.hosts|
                  && s.agents[a].status != AgentState.Pending
                  && s.hosts[s.agents[a].hostId] in {HostState.Active, HostState.Revoked}
                  && (Usable(s.agents[a].status) ==> s.hosts[s.agents[a].hostId] == HostState.Active)
  }

  lemma CascadeKeepsHostInvariant(s: Store, hostId: nat)
    requires HostInvariant(s)
    ensures HostInvariant(OrKeep(RevokeHost(s, hostId), s))
  {
  }

  lemma StepKeepsHostInvariant(l: Lifetimes, s: Store, e: Event)
    requires HostInvariant(s)
    ensures HostInvariant(Step(l, s, e))
  {
    match e.op
    case HostRevocation(hostId) => CascadeKeepsHostInvariant(s, hostId);
    case _ =>
  }

  lemma {:induction false} HostInvariantAlong(l: Lifetimes, events: seq<Event>, n: nat)
    requires n <= |events|
    ensures HostInvariant(After(l, events, n))
  {
    if n > 0 {
      HostInvariantAlong(l, events, n - 1);
      StepKeepsHostInvariant(l, After(l, events, n - 1), events[n - 1]);
    }
  }

  // ---------------------------------------------------------------- the three clocks, over a whole run

  /** When the agent appeared. */
  function BornAt(l: Lifetimes, events: seq<Event>, n: nat, a: nat): int
    requires n <= |events| && a < |After(l, events, n).agents|
  {
    if a < |After(l, events, n - 1).agents| then BornAt(l, events, n - 1, a) else events[n - 1].now
  }

  /** The step turned the agent active: it appeared so, or it was not active before. */
  predicate Activates(before: Store, after: Store, a: nat) {
    && a < |after.agents| && after.agents[a].status == AgentState.Active
    && (a < |before.agents| ==> before.agents[a].status != AgentState.Active)
  }

  /** When the agent was last turned active. */
  function LastActivation(l: Lifetimes, events: seq<Event>, n: nat, a: nat): int
    requires n <= |events| && a < |After(l, events, n).agents|
  {
    if Activates(After(l, events, n - 1), After(l, events, n), a) || a >= |After(l, events, n - 1).agents|
    then events[n - 1].now
    else LastActivation(l, events, n - 1, a)
  }

  /** Registration and the last activation fix all clocks; a reactivation moves two of them and never the third. */
  lemma {:induction false} ClocksTellHistory(l: Lifetimes, events: seq<Event>, n: nat, a: nat)
    requires n <= |events| && a < |After(l, events, n).agents|
    ensures After(l, events, n).agents[a].clocks ==
            Stamped(l, LastActivation(l, events, n, a), Some(BornAt(l, events, n, a) + l.absolute * MILLIS))
  {
    var before := After(l, events, n - 1);
    if a < |before.agents| {
      ClocksTellHistory(l, events, n - 1, a);
      StepSetsClocks(l, before, events[n - 1], a);
    } else {
      StepStampsNewcomer(l, before, events[n - 1], a);
    }
  }

  lemma StepSetsClocks(l: Lifetimes, s: Store, e: Event, a: nat)
    requires a < |s.agents|
    ensures var after := Step(l, s, e);
            && a < |after.agents|
            && after.agents[a].clocks == if Activates(s, after, a) then Stamped(l, e.now, s.agents[a].clocks.absolute)
                                         else s.agents[a].clocks
  {
  }

  lemma StepStampsNewcomer(l: Lifetimes, s: Store, e: Event, a: nat)
    requires |s.agents| <= a < |Step(l, s, e).agents|
    ensures Step(l, s, e).agents[a].clocks == Stamped(l, e.now, Some(e.now + l.absolute * MILLIS))
  {
  }

  /**
   * In every reachable state and at every instant the state check passes an agent iff it is active, within
   * its absolute lifetime counted from registration, and within its maximum lifetime and its session counted
   * from the last activation, however many reactivations there were. The host needs no mention: an active
   * agent's host is active.
   */
  lemma PassesExactlyWhileAlive(l: Lifetimes, events: seq<Event>, n: nat, a: nat, now: int)
    requires n <= |events| && a < |After(l, events, n).agents|
    ensures CheckAgent(After(l, events, n), a, now).None? <==>
              && After(l, events, n).agents[a].status == AgentState.Active
              && now <= BornAt(l, events, n, a) + l.absolute * MILLIS
              && now <= LastActivation(l, events, n, a) + l.maximum * MILLIS
              && now <= LastActivation(l, events, n, a) + l.session * MILLIS
  {
    HostInvariantAlong(l, events, n);
    ClocksTellHistory(l, events, n, a);
  }

  /** The absolute clock stamped at registration is the one read at any later point of the run. */
  lemma {:induction false} AbsoluteClockNeverMoves(l: Lifetimes, events: seq<Event>, m: nat, n: nat, a: nat)
    requires m <= n <= |events| && a < |After(l, events, m).agents|
    ensures a < |After(l, events, n).agents|
    ensures After(l, events, n).agents[a].clocks.absolute == Some(BornAt(l, events, m, a) + l.absolute * MILLIS)
  {
    RunIsSanctioned(l, events, m, n);
    ClocksTellHistory(l, events, m, a);
  }

  // ---------------------------------------------------------------- revocation is final

  lemma RevokedIsForever(l: Lifetimes, events: seq<Event>, m: nat, n: nat, a: nat, now: int)
    requires m <= n <= |events| && a < |After(l, events, m).agents|
    requires After(l, events, m).agents[a].status == AgentState.Revoked
    ensures a < |After(l, events, n).agents| && After(l, events, n).agents[a].hostId < |After(l, events, n).hosts|
    ensures var host := After(l, events, n).hosts[After(l, events, n).agents[a].hostId];
            CheckAgent(After(l, events, n), a, now) == Some(if host == HostState.Revoked then HostNotActive(host)
                                                            else AgentNotActive(AgentState.Revoked))
  {
    RunIsSanctioned(l, events, m, n);
    HostInvariantAlong(l, events, n);
  }

  /** After a host's revocation none of its agents, whenever it appeared and whatever is tried later, passes again. */
  lemma HostRevocationIsFinal(l: Lifetimes, events: seq<Event>, m: nat, n: nat, h: nat, a: nat, now: int)
    requires m <= n <= |events| && h < |After(l, events, m).hosts|
    requires After(l, events, m).hosts[h] == HostState.Revoked
    requires a < |After(l, events, n).agents| && After(l, events, n).agents[a].hostId == h
    ensures CheckAgent(After(l, events, n), a, now) == Some(HostNotActive(HostState.Revoked))
    ensures !Usable(After(l, events, n).agents[a].status)
  {
    RunIsSanctioned(l, events, m, n);
    HostInvariantAlong(l, events, n);
  }

  /** The owner asks for the agent's revocation, or for its host's, while the agent is active or expired. */
  predicate Revokes(s: Store, op: Op, a: nat) {
    && a < |s.agents| && s.agents[a].status in {AgentState.Active, AgentState.Expired}
    && (op == Revocation(s.agents[a].hostId, a) || op == HostRevocation(s.agents[a].hostId))
  }

  predicate IsRevokedBy(l: Lifetimes, events: seq<Event>, i: nat, a: nat)
    requires i < |events|
  {
    Revokes(After(l, events, i), events[i].op, a)
  }

  lemma StepRevokes(l: Lifetimes, s: Store, e: Event, a: nat)
    requires HostInvariant(s) && a < |s.agents|
    ensures a < |Step(l, s, e).agents|
    ensures Step(l, s, e).agents[a].status == AgentState.Revoked <==>
            s.agents[a].status == AgentState.Revoked || Revokes(s, e.op, a)
  {
    StepIsSanctioned(l, s, e);
    StepMovesAgent(l, s, e, a);
  }

  lemma RevokedOneMore(l: Lifetimes, events: seq<Event>, n: nat, a: nat)
    requires n < |events| && a < |After(l, events, n).agents|
    ensures a < |After(l, events, n + 1).agents|
    ensures After(l, events, n + 1).agents[a].status == AgentState.Revoked <==>
            After(l, events, n).agents[a].status == AgentState.Revoked || IsRevokedBy(l, events, n, a)
  {
    HostInvariantAlong(l, events, n);
    OneMore(l, events, n);
    StepRevokes(l, After(l, events, n), events[n], a);
  }

  lemma Newcomer(l: Lifetimes, events: seq<Event>, n: nat, a: nat)
    requires n < |events| && |After(l, events, n).agents| <= a < |After(l, events, n + 1).agents|
    ensures After(l, events, n + 1).agents[a].status == AgentState.Active
    ensures forall i :: 0 <= i < n + 1 ==> !IsRevokedBy(l, events, i, a)
  {
    OneMore(l, events, n);
    StepAddsAgent(l, After(l, events, n), events[n]);
    forall i | 0 <= i < n + 1 ensures !IsRevokedBy(l, events, i, a) {
      RunIsSanctioned(l, events, i, n);
    }
  }

  /** An agent is revoked exactly when its owner once asked for it, however long ago. */
  lemma {:induction false} RevokedExactlyWhen(l: Lifetimes, events: seq<Event>, n: nat, a: nat)
    requires n <= |events| && a < |After(l, events, n).agents|
    ensures After(l, events, n).agents[a].status == AgentState.Revoked <==>
            exists i :: 0 <= i < n && IsRevokedBy(l, events, i, a)
  {
    if a < |After(l, events, n - 1).agents| {
      RevokedExactlyWhen(l, events, n - 1, a);
      RevokedOneMore(l, events, n - 1, a);
    } else {
      Newcomer(l, events, n - 1, a);
    }
  }

  lemma OneMore(l: Lifetimes, events: seq<Event>, n: nat)
    requires n < |events|
    ensures After(l, events, n + 1) == Step(l, After(l, events, n), events[n])
  {
  }

  lemma FinalStays(l: Lifetimes, events: seq<Event>, m: nat, n: nat, a: nat)
    requires m <= n <= |events| && a < |After(l, events, m).agents| && Final(After(l, events, m).agents[a].status)
    ensures a < |After(l, events, n).agents| && Final(After(l, events, n).agents[a].status)
  {
    RunIsSanctioned(l, events, m, n);
  }

  lemma FinalIsRefused(s: Store, a: nat, now: int)
    requires a < |s.agents| && Final(s.agents[a].status)
    ensures CheckAgent(s, a, now).Some?
  {
  }

  /** The owner asks for the agent's revocation. */
  predicate OwnerRevokes(l: Lifetimes, events: seq<Event>, i: nat, a: nat)
    requires i < |events|
  {
    var agents := After(l, events, i).agents;
    a < |agents| && events[i].op == Revocation(agents[a].hostId, a)
  }

  lemma OwnerIsHeeded(l: Lifetimes, events: seq<Event>, i: nat, a: nat)
    requires i < |events| && OwnerRevokes(l, events, i, a)
    ensures a < |After(l, events, i + 1).agents| && Final(After(l, events, i + 1).agents[a].status)
  {
    var s := After(l, events, i);
    HostInvariantAlong(l, events, i);
    OneMore(l, events, i);
    StepIsSanctioned(l, s, events[i]);
    StepMovesAgent(l, s, events[i], a);
  }

  /** Asking once is enough: from then on the agent never passes again, whatever the answer was. */
  lemma RevocationSticks(l: Lifetimes, events: seq<Event>, i: nat, n: nat, a: nat, now: int)
    requires i < n <= |events| && OwnerRevokes(l, events, i, a)
    ensures a < |After(l, events, n).agents| && Final(After(l, events, n).agents[a].status)
    ensures CheckAgent(After(l, events, n), a, now).Some?
  {
    OwnerIsHeeded(l, events, i, a);
    FinalStays(l, events, i + 1, n, a);
    FinalIsRefused(After(l, events, n), a, now);
  }

  /** The revocation of a host is asked for that is active, or was. */
  predicate HostIsRevoked(l: Lifetimes, events: seq<Event>, i: nat, h: nat)
    requires i < |events|
  {
    var hosts := After(l, events, i).hosts;
    h < |hosts| && hosts[h] in {HostState.Active, HostState.Revoked} && events[i].op == HostRevocation(h)
  }

  lemma HostRevocationTakes(l: Lifetimes, events: seq<Event>, i: nat, h: nat)
    requires i < |events| && HostIsRevoked(l, events, i, h)
    ensures h < |After(l, events, i + 1).hosts| && After(l, events, i + 1).hosts[h] == HostState.Revoked
  {
    OneMore(l, events, i);
    StepIsSanctioned(l, After(l, events, i), events[i]);
    StepMovesHost(l, After(l, events, i), events[i], h);
  }

  lemma HostStaysRevoked(l: Lifetimes, events: seq<Event>, i: nat, n: nat, h: nat)
    requires i < n <= |events| && HostIsRevoked(l, events, i, h)
    ensures h < |After(l, events, n).hosts| && After(l, events, n).hosts[h] == HostState.Revoked
  {
    HostRevocationTakes(l, events, i, h);
    RunIsSanctioned(l, events, i + 1, n);
  }

  /** From then on none of its agents passes, whenever it appeared and whatever is tried. */
  lemma HostRevocationSticks(l: Lifetimes, events: seq<Event>, i: nat, n: nat, h: nat, a: nat, now: int)
    requires i < n <= |events| && HostIsRevoked(l, events, i, h)
    requires a < |After(l, events, n).agents| && After(l, events, n).agents[a].hostId == h
    ensures CheckAgent(After(l, events, n), a, now) == Some(HostNotActive(HostState.Revoked))
    ensures !Usable(After(l, events, n).agents[a].status)
  {
    HostRevocationTakes(l, events, i, h);
    HostRevocationIsFinal(l, events, i + 1, n, h, a, now);
  }

  /** An agent turns active again exactly at its owner's reactivation, expired and within its absolute lifetime. */
  lemma ReactivatedExactlyWhen(l: Lifetimes, events: seq<Event>, k: nat, a: nat)
    requires k < |events| && a < |After(l, events, k).agents|
    ensures var agent := After(l, events, k).agents[a];
            Activates(After(l, events, k), After(l, events, k + 1), a) <==>
              && events[k].op == Reactivation(agent.hostId, a)
              && agent.status == AgentState.Expired
              && events[k].now < BornAt(l, events, k, a) + l.absolute * MILLIS
  {
    var s := After(l, events, k);
    HostInvariantAlong(l, events, k);
    ClocksTellHistory(l, events, k, a);
    StepMovesAgent(l, s, events[k], a);
    StepIsSanctioned(l, s, events[k]);
  }

  // ---------------------------------------------------------------- introspection against the state check

  /** A token that only the live state can make inactive. */
  function GoodToken(a: nat): Token {
    Token(true, a, true, None)
  }

  lemma WholeSeconds(expires: int, now: int)
    ensures expires > now / MILLIS <==> now < expires * MILLIS
  {
  }

  /**
   * In every reachable state introspection says active of exactly those tokens that are genuine, for this gateway
   * and not expired, of an agent that is active and within its session, counted from its last activation.
   */
  lemma IntrospectsExactlyWhen(l: Lifetimes, events: seq<Event>, n: nat, token: Token, now: int)
    requires n <= |events|
    ensures var s, a := After(l, events, n), token.subject;
            Introspection(s, token, now) <==>
              && token.genuine && token.forUs && (token.expires.Some? ==> now < token.expires.value * MILLIS)
              && a < |s.agents| && s.agents[a].status == AgentState.Active
              && now < LastActivation(l, events, n, a) + l.session * MILLIS
  {
    if token.subject < |After(l, events, n).agents| {
      ClocksTellHistory(l, events, n, token.subject);
    }
    if token.expires.Some? {
      WholeSeconds(token.expires.value, now);
    }
  }

  lemma SessionEndsFirst(l: Lifetimes, s: Store, a: nat, born: int, activated: int, now: int)
    requires a < |s.agents| && l.session <= l.maximum
    requires s.agents[a].clocks == Stamped(l, activated, Some(born + l.absolute * MILLIS))
    ensures var agent := s.agents[a];
            && agent.status == AgentState.Active
            && now <= activated + l.maximum * MILLIS
            && now <= activated + l.session * MILLIS
            <==>
            || Introspection(s, GoodToken(a), now)
            || (agent.status == AgentState.Active && agent.clocks.session == Some(now))
  {
  }

  /** If sessions end no later than the maximum lifetime, the two differ only at the session's last instant. */
  lemma IntrospectionAgrees(l: Lifetimes, events: seq<Event>, n: nat, a: nat, now: int)
    requires n <= |events| && a < |After(l, events, n).agents| && l.session <= l.maximum
    ensures var s := After(l, events, n);
            CheckAgent(s, a, now).None? <==>
              && now <= BornAt(l, events, n, a) + l.absolute * MILLIS
              && (Introspection(s, GoodToken(a), now)
                  || (s.agents[a].status == AgentState.Active && s.agents[a].clocks.session == Some(now)))
  {
    PassesExactlyWhileAlive(l, events, n, a, now);
    ClocksTellHistory(l, events, n, a);
    SessionEndsFirst(l, After(l, events, n), a, BornAt(l, events, n, a), LastActivation(l, events, n, a), now);
  }

  /** Introspection says active and the absolute clock has not passed, so the state check had better pass too. */
  ghost predicate IntrospectionIsHonest(l: Lifetimes, events: seq<Event>, n: nat, a: nat, token: Token, now: int)
    requires n <= |events| && a < |After(l, events, n).agents|
  {
    token.subject == a && Introspection(After(l, events, n), token, now)
    && now <= BornAt(l, events, n, a) + l.absolute * MILLIS
    ==> CheckAgent(After(l, events, n), a, now).None?
  }

  ghost predicate AlwaysHonest(l: Lifetimes) {
    forall events, n: nat, a: nat, token, now ::
      Monotone(events) && n <= |events| && a < |After(l, events, n).agents|
      ==> IntrospectionIsHonest(l, events, n, a, token, now)
  }

  /**
   * Introspection never looks at the host or at the other two clocks. Within the absolute lifetime it is
   * right about every agent of every run iff the maximum lifetime is not shorter than both the session and
   * the absolute lifetime.
   */
  lemma HonestExactlyWhen(l: Lifetimes)
    ensures AlwaysHonest(l) <==> l.session <= l.maximum || l.absolute <= l.maximum
  {
    if l.session <= l.maximum || l.absolute <= l.maximum {
      forall events, n: nat, a: nat, token, now | Monotone(events) && n <= |events| && a < |After(l, events, n).agents|
        ensures IntrospectionIsHonest(l, events, n, a, token, now)
      {
        HonestWhenMaximumCovers(l, events, n, a, token, now);
      }
    } else {
      var events, now := DishonestRun(), l.maximum * MILLIS + 1;
      DishonestRunGoesWrong(l);
      assert !IntrospectionIsHonest(l, events, 2, 0, GoodToken(0), now);
    }
  }

  lemma {:induction false} BornBeforeActivation(l: Lifetimes, events: seq<Event>, n: nat, a: nat)
    requires n <= |events| && Monotone(events) && a < |After(l, events, n).agents|
    ensures BornAt(l, events, n, a) <= LastActivation(l, events, n, a) <= events[n - 1].now
  {
    if a < |After(l, events, n - 1).agents| {
      BornBeforeActivation(l, events, n - 1, a);
    }
  }

  lemma HonestWhenMaximumCovers(l: Lifetimes, events: seq<Event>, n: nat, a: nat, token: Token, now: int)
    requires Monotone(events) && n <= |events| && a < |After(l, events, n).agents|
    requires l.session <= l.maximum || l.absolute <= l.maximum
    ensures IntrospectionIsHonest(l, events, n, a, token, now)
  {
    PassesExactlyWhileAlive(l, events, n, a, now);
    ClocksTellHistory(l, events, n, a);
    BornBeforeActivation(l, events, n, a);
    MaximumCovers(l, BornAt(l, events, n, a), LastActivation(l, events, n, a), now);
  }

  lemma MaximumCovers(l: Lifetimes, born: int, activated: int, now: int)
    requires born <= activated && (l.session <= l.maximum || l.absolute <= l.maximum)
    ensures now <= activated + l.session * MILLIS && now <= born + l.absolute * MILLIS
            ==> now <= activated + l.maximum * MILLIS
  {
  }

  function DishonestRun(): seq<Event> {
    [Event(AddHost(HostState.Active), 0), Event(Registration(0), 0)]
  }

  lemma DishonestRunGoesWrong(l: Lifetimes)
    requires l.maximum < l.session && l.maximum < l.absolute
    ensures Monotone(DishonestRun()) && |After(l, DishonestRun(), 2).agents| == 1
    ensures var s, now := After(l, DishonestRun(), 2), l.maximum * MILLIS + 1;
            && Introspection(s, GoodToken(0), now)
            && now <= BornAt(l, DishonestRun(), 2, 0) + l.absolute * MILLIS
            && CheckAgent(s, 0, now) == Some(MaximumExceeded)
  {
    var events := DishonestRun();
    assert After(l, events, 1) == Store([HostState.Active], []);
    var clocks := Stamped(l, 0, Some(l.absolute * MILLIS));
    assert After(l, events, 2) == Store([HostState.Active], [Agent(0, AgentState.Active, clocks)]);
    assert BornAt(l, events, 2, 0) == 0;
  }
}
