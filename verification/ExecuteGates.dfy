/**
 * The gates of `POST /capability/execute` in front of the connector, with the per-(agent, connection) budget,
 * and the admin view's prediction of which grants the connector authorizations block.
 *
 * The rows read come in as a `World`; the policy engine is a function of what it is shown. What happens after
 * the credential has been found is outside this model.
 */
module ExecuteGates {
  import opened Arithmetic
  import opened Common
  import opened Text
  import RateLimiter

  const WINDOW := 60000

  datatype Agent = Agent(id: string, projectId: Option<string>, mode: string)

  /** The part of a capability grant that says what to call. */
  datatype Mapping = Mapping(capability: string, connectionId: Option<string>, operation: Option<string>)

  datatype Connection = Connection(projectId: Option<string>, allowed: seq<string>, platform: string)

  datatype Authorization = Authorization(connectionId: string, allowed: seq<string>, rateLimit: Option<int>)

  datatype Verdict = Allow | RequireApproval | Deny

  type Policy = (string, string, string, string) -> Verdict

  datatype World = World(
    connections: map<string, Connection>,
    authorizations: map<string, seq<Authorization>>,
    policy: Option<Policy>,
    drivers: set<string>,
    credentials: set<string>)

  datatype Error =
    | NoMapping
    | ConnectionNotFound
    | OtherProject
    | NotOnConnection
    | ConnectionNotAuthorized
    | OperationNotAuthorized
    | RateLimited(retryAfterSeconds: int)
    | ApprovalRequired
    | PolicyDenied
    | NoDriver
    | CredentialMissing

  function Authorizations(w: World, agent: Agent): seq<Authorization> {
    if agent.id in w.authorizations then w.authorizations[agent.id] else []
  }

  /** The first authorization for the connection. */
  function Find(authorizations: seq<Authorization>, connectionId: string): (found: Option<Authorization>)
    ensures found.Some? ==> found.value in authorizations && found.value.connectionId == connectionId
    ensures found.None? ==> forall a :: a in authorizations ==> a.connectionId != connectionId
  {
    if authorizations == [] then None
    else if authorizations[0].connectionId == connectionId then Some(authorizations[0])
    else Find(authorizations[1..], connectionId)
  }

  predicate Permits(allowed: seq<string>, operation: string) {
    allowed == [] || operation in allowed
  }

  // ---------------------------------------------------------------- each gate on its own

  datatype Gate =
    Mapped | Known | SameProject | OnAllowlist | Authorized | WithinBudget | PolicyAllows | HasDriver | HasCredential

  const GATES := [
    Mapped, Known, SameProject, OnAllowlist, Authorized, WithinBudget, PolicyAllows, HasDriver, HasCredential
  ]

  /** Where the request is going, if it is going anywhere. */
  predicate Bound(w: World, m: Mapping) {
    NonEmpty(m.connectionId) && NonEmpty(m.operation) && m.connectionId.value in w.connections
  }

  function AuthorizationProblem(authorizations: seq<Authorization>, connectionId: string,
      operation: string): Option<Error> {
    if authorizations == [] then None
    else
      var found := Find(authorizations, connectionId);
      if found.None? then Some(ConnectionNotAuthorized)
      else if !Permits(found.value.allowed, operation) then Some(OperationNotAuthorized)
      else None
  }

  function KeyOf(agentId: string, connectionId: string): string {
    agentId + ":" + connectionId
  }

  /** The budget the request counts against, if there is one. */
  function Budget(w: World, agent: Agent, m: Mapping): Option<int>
    requires m.connectionId.Some?
  {
    var found := Find(Authorizations(w, agent), m.connectionId.value);
    if found.Some? && found.value.rateLimit.Some?
        && found.value.rateLimit.value > 0 then found.value.rateLimit else None
  }

  function CallOf(agent: Agent, m: Mapping, limit: int, t: int): RateLimiter.Call
    requires m.connectionId.Some?
  {
    RateLimiter.Call(KeyOf(agent.id, m.connectionId.value), t, limit)
  }

  function BudgetProblem(w: World, agent: Agent, m: Mapping, s: RateLimiter.State, t: int): Option<Error>
    requires m.connectionId.Some?
  {
    var limit := Budget(w, agent, m);
    if limit.None? then None
    else
      var answer := RateLimiter.Check(RateLimiter.FromWindow, WINDOW, s, CallOf(agent, m, limit.value, t)).1;
      if answer.allowed then None else Some(RateLimited(answer.retryAfterSeconds))
  }

  function PolicyProblem(w: World, agent: Agent, m: Mapping): Option<Error>
    requires Bound(w, m)
  {
    if w.policy.None? then None
    else
      match w.policy.value(agent.mode, m.capability, w.connections[m.connectionId.value].platform, m.operation.value)
      case Allow => None
      case RequireApproval => Some(ApprovalRequired)
      case Deny => Some(PolicyDenied)
  }

  /** What one gate has against the request, read off the rows without running the others. */
  function Problem(gate: Gate, w: World, agent: Agent, m: Mapping, s: RateLimiter.State, t: int): Option<Error> {
    if gate == Mapped then if NonEmpty(m.connectionId) && NonEmpty(m.operation) then None else Some(NoMapping)
    else if gate == Known then
      if m.connectionId.Some? && m.connectionId.value in w.connections then None else Some(ConnectionNotFound)
    else if !Bound(w, m) then None
    else
      var connection, operation := w.connections[m.connectionId.value], m.operation.value;
      match gate
      case SameProject =>
        if NonEmpty(connection.projectId) && connection.projectId != agent.projectId then Some(OtherProject) else None
      case OnAllowlist => if Permits(connection.allowed, operation) then None else Some(NotOnConnection)
      case Authorized => AuthorizationProblem(Authorizations(w, agent), m.connectionId.value, operation)
      case WithinBudget => BudgetProblem(w, agent, m, s, t)
      case PolicyAllows => PolicyProblem(w, agent, m)
      case HasDriver => if connection.platform in w.drivers then None else Some(NoDriver)
      case HasCredential => if m.connectionId.value in w.credentials then None else Some(CredentialMissing)
      case _ => None
  }

  /** Every gate is content: a conjunction, in no order. */
  ghost predicate Admitted(w: World, agent: Agent, m: Mapping, s: RateLimiter.State, t: int) {
    forall gate :: gate in GATES ==> Problem(gate, w, agent, m, s, t).None?
  }

  /** No gate before position `n` objects. */
  predicate ClearBefore(n: nat, w: World, agent: Agent, m: Mapping, s: RateLimiter.State, t: int)
    requires n <= |GATES|
  {
    forall i :: 0 <= i < n ==> Problem(GATES[i], w, agent, m, s, t).None?
  }

  ghost predicate IsFirstProblem(w: World, agent: Agent, m: Mapping, s: RateLimiter.State, t: int, error: Error) {
    exists n ::
      && 0 <= n < |GATES|
      && Problem(GATES[n], w, agent, m, s, t) == Some(error)
      && ClearBefore(n, w, agent, m, s, t)
  }

  /** The request is counted: it got as far as the budget, and there is one. */
  predicate Counted(w: World, agent: Agent, m: Mapping, s: RateLimiter.State, t: int) {
    ClearBefore(5, w, agent, m, s, t) && m.connectionId.Some? && Budget(w, agent, m).Some?
  }

  function AfterExecute(w: World, agent: Agent, m: Mapping, s: RateLimiter.State, t: int): RateLimiter.State {
    if Counted(w, agent, m, s, t)
    then RateLimiter.Check(RateLimiter.FromWindow, WINDOW, s, CallOf(agent, m, Budget(w, agent, m).value, t)).0
    else s
  }

  // ---------------------------------------------------------------- the gates in sequence

  /** Gate after gate, leaving at the first that objects; `None` means the connector is called. */
  function Sequence(w: World, agent: Agent, m: Mapping, s: RateLimiter.State, t: int)
    : (RateLimiter.State, Option<Error>)
  {
    if !NonEmpty(m.connectionId) || !NonEmpty(m.operation) then (s, Some(NoMapping))
    else
      var connectionId, operation := m.connectionId.value, m.operation.value;
      if connectionId !in w.connections then (s, Some(ConnectionNotFound))
      else
        var connection := w.connections[connectionId];
        var authorization := AuthorizationProblem(Authorizations(w, agent), connectionId, operation);
        if NonEmpty(connection.projectId) && connection.projectId != agent.projectId then (s, Some(OtherProject))
        else if !Permits(connection.allowed, operation) then (s, Some(NotOnConnection))
        else if authorization.Some? then (s, authorization)
        else
          var (after, budget) := Spend(w, agent, m, s, t);
          (after, if budget.Some? then budget else Rest(w, agent, m))
  }

  function Rest(w: World, agent: Agent, m: Mapping): Option<Error>
    requires Bound(w, m)
  {
    var policy := PolicyProblem(w, agent, m);
    if policy.Some? then policy
    else if w.connections[m.connectionId.value].platform !in w.drivers then Some(NoDriver)
    else if m.connectionId.value !in w.credentials then Some(CredentialMissing)
    else None
  }

  function Spend(w: World, agent: Agent, m: Mapping, s: RateLimiter.State, t: int): (RateLimiter.State, Option<Error>)
    requires m.connectionId.Some?
  {
    var limit := Budget(w, agent, m);
    if limit.None? then (s, None)
    else
      var (after, answer) := RateLimiter.Check(RateLimiter.FromWindow, WINDOW, s, CallOf(agent, m, limit.value, t));
      (after, if answer.allowed then None else Some(RateLimited(answer.retryAfterSeconds)))
  }

  lemma FirstAt(n: nat, w: World, agent: Agent, m: Mapping, s: RateLimiter.State, t: int)
    requires n < |GATES| && ClearBefore(n, w, agent, m, s, t)
    ensures var p := Problem(GATES[n], w, agent, m, s, t);
            && (p.Some? ==> IsFirstProblem(w, agent, m, s, t, p.value) && !Admitted(w, agent, m, s, t))
            && (p.None? ==> ClearBefore(n + 1, w, agent, m, s, t))
  {
    assert GATES[n] in GATES;
  }

  lemma AllClear(w: World, agent: Agent, m: Mapping, s: RateLimiter.State, t: int)
    requires ClearBefore(9, w, agent, m, s, t)
    ensures Admitted(w, agent, m, s, t)
  {
  }

  /** The verdict `error` is the order-free one. */
  ghost predicate Decides(error: Option<Error>, w: World, agent: Agent, m: Mapping, s: RateLimiter.State, t: int) {
    if error.None? then Admitted(w, agent, m, s, t)
    else IsFirstProblem(w, agent, m, s, t, error.value) && !Admitted(w, agent, m, s, t)
  }

  /** The gates up to the connector authorizations. */
  lemma FirstFive(w: World, agent: Agent, m: Mapping, s: RateLimiter.State, t: int)
    requires !ClearBefore(5, w, agent, m, s, t)
    ensures var (after, error) := Sequence(w, agent, m, s, t);
            after == s && error.Some? && Decides(error, w, agent, m, s, t)
  {
    FirstAt(0, w, agent, m, s, t);
    if ClearBefore(1, w, agent, m, s, t) { FirstAt(1, w, agent, m, s, t); }
    if ClearBefore(2, w, agent, m, s, t) { FirstAt(2, w, agent, m, s, t); }
    if ClearBefore(3, w, agent, m, s, t) { FirstAt(3, w, agent, m, s, t); }
    if ClearBefore(4, w, agent, m, s, t) { FirstAt(4, w, agent, m, s, t); }
  }

  lemma PastFive(w: World, agent: Agent, m: Mapping, s: RateLimiter.State, t: int)
    requires ClearBefore(5, w, agent, m, s, t)
    ensures Bound(w, m)
    ensures var (after, budget) := Spend(w, agent, m, s, t);
            && budget == Problem(WithinBudget, w, agent, m, s, t)
            && after == AfterExecute(w, agent, m, s, t)
            && Sequence(w, agent, m, s, t) == (after, if budget.Some? then budget else Rest(w, agent, m))
  {
    assert GATES[0] == Mapped && GATES[1] == Known && GATES[2] == SameProject;
    assert GATES[3] == OnAllowlist && GATES[4] == Authorized;
    assert forall i :: 0 <= i < 5 ==> Problem(GATES[i], w, agent, m, s, t).None?;
    assert Problem(Mapped, w, agent, m, s, t).None? && Problem(Known, w, agent, m, s, t).None?;
    assert Problem(SameProject, w, agent, m, s, t).None? && Problem(OnAllowlist, w, agent, m, s, t).None?;
    assert Problem(Authorized, w, agent, m, s, t).None?;
  }

  /** The gates after the budget. */
  lemma LastThree(w: World, agent: Agent, m: Mapping, s: RateLimiter.State, t: int)
    requires ClearBefore(6, w, agent, m, s, t) && Bound(w, m)
    ensures Decides(Rest(w, agent, m), w, agent, m, s, t)
  {
    FirstAt(6, w, agent, m, s, t);
    if ClearBefore(7, w, agent, m, s, t) { FirstAt(7, w, agent, m, s, t); }
    if ClearBefore(8, w, agent, m, s, t) { FirstAt(8, w, agent, m, s, t); }
    if ClearBefore(9, w, agent, m, s, t) { AllClear(w, agent, m, s, t); }
  }

  /**
   * The early exits compute an order-free verdict: the connector is called iff every gate is content on its
   * own, the error is the first gate's that is not, and the budget is charged iff the gates before it are all
   * content and there is one, whatever the later gates say.
   */
  lemma SequenceIsOrderFree(w: World, agent: Agent, m: Mapping, s: RateLimiter.State, t: int)
    ensures var (after, error) := Sequence(w, agent, m, s, t);
            && (error.None? <==> Admitted(w, agent, m, s, t))
            && (error.Some? ==> IsFirstProblem(w, agent, m, s, t, error.value))
            && after == AfterExecute(w, agent, m, s, t)
  {
    if ClearBefore(5, w, agent, m, s, t) {
      PastFive(w, agent, m, s, t);
      FirstAt(5, w, agent, m, s, t);
      assert GATES[5] == WithinBudget;
      if Problem(WithinBudget, w, agent, m, s, t).None? {
        LastThree(w, agent, m, s, t);
      }
    } else {
      FirstFive(w, agent, m, s, t);
    }
  }

  // ---------------------------------------------------------------- the verdict, on the rows themselves

  /** It stands at `i`, and no other for its connection before it. */
  predicate IsFirst(authorizations: seq<Authorization>, i: nat, a: Authorization)
    requires i < |authorizations|
  {
    authorizations[i] == a && forall j :: 0 <= j < i ==> authorizations[j].connectionId != a.connectionId
  }

  lemma {:induction false} FindIsFirst(authorizations: seq<Authorization>, connectionId: string) returns (i: nat)
    requires Find(authorizations, connectionId).Some?
    ensures i < |authorizations| && IsFirst(authorizations, i, Find(authorizations, connectionId).value)
  {
    if authorizations[0].connectionId == connectionId {
      i := 0;
    } else {
      i := FindIsFirst(authorizations[1..], connectionId);
      i := i + 1;
    }
  }

  /** A list of operations that is empty names them all. */
  predicate OnList(allowed: seq<string>, operation: string) {
    |allowed| == 0 || exists i :: 0 <= i < |allowed| && allowed[i] == operation
  }

  predicate Authorizes(w: World, agentId: string, a: Authorization, connectionId: string) {
    && agentId in w.authorizations && a.connectionId == connectionId
    && exists i :: 0 <= i < |w.authorizations[agentId]| && IsFirst(w.authorizations[agentId], i, a)
  }

  /** The agent has authorizations. */
  predicate IsRestricted(w: World, agentId: string) {
    agentId in w.authorizations && |w.authorizations[agentId]| > 0
  }

  /** An agent with authorizations has one for the connection, with the operation on its list. */
  predicate MayUse(w: World, agentId: string, connectionId: string, operation: string) {
    IsRestricted(w, agentId) ==>
      exists a :: a in w.authorizations[agentId] && Authorizes(w, agentId, a, connectionId)
                  && OnList(a.allowed, operation)
  }

  /** The limiter, in this state, allows the call. */
  predicate Allows(s: RateLimiter.State, call: RateLimiter.Call) {
    RateLimiter.Check(RateLimiter.FromWindow, WINDOW, s, call).1.allowed
  }

  /** A positive limit on the authorization for the connection is not used up. */
  predicate HasBudget(w: World, agentId: string, connectionId: string, s: RateLimiter.State, t: int) {
    agentId in w.authorizations ==>
      forall a :: a in w.authorizations[agentId] && Authorizes(w, agentId, a, connectionId)
                  && a.rateLimit.Some? && a.rateLimit.value > 0 ==>
        Allows(s, RateLimiter.Call(agentId + ":" + connectionId, t, a.rateLimit.value))
  }

  /** The policy, if there is one, says `Allow`. */
  predicate PolicySays(w: World, agent: Agent, m: Mapping, verdict: Verdict)
    requires Bound(w, m)
  {
    w.policy.Some? &&
    verdict ==
    w.policy.value(agent.mode, m.capability, w.connections[m.connectionId.value].platform, m.operation.value)
  }

  /**
   * A complete mapping to a connection that is there and nobody else's project's, with the operation on its list and
   * on that of the agent's authorization for it.
   */
  predicate ReachesBudget(w: World, agent: Agent, m: Mapping) {
    && m.connectionId.Some? && m.connectionId.value != "" && m.connectionId.value in w.connections
    && m.operation.Some? && m.operation.value != ""
    && var connection := w.connections[m.connectionId.value];
       && (connection.projectId.None? || connection.projectId.value == "" || connection.projectId == agent.projectId)
       && OnList(connection.allowed, m.operation.value)
       && MayUse(w, agent.id, m.connectionId.value, m.operation.value)
  }

  /** A request is charged exactly if it gets that far and the authorization has a positive limit, whatever follows. */
  lemma ChargedExactlyWhen(w: World, agent: Agent, m: Mapping, s: RateLimiter.State, t: int, a: Authorization)
    requires m.connectionId.Some? && Authorizes(w, agent.id, a, m.connectionId.value)
    ensures Sequence(w, agent, m, s, t).0 ==
            if ReachesBudget(w, agent, m) && a.rateLimit.Some? && a.rateLimit.value > 0
            then
              var call := RateLimiter.Call(agent.id + ":" + m.connectionId.value, t, a.rateLimit.value);
              RateLimiter.Check(RateLimiter.FromWindow, WINDOW, s, call).0
            else s
  {
    FirstIsFound(w, agent, m.connectionId.value);
  }

  lemma OthersAreNotCharged(w: World, agent: Agent, m: Mapping, s: RateLimiter.State, t: int)
    requires forall a :: m.connectionId.Some? ==> !Authorizes(w, agent.id, a, m.connectionId.value)
    ensures Sequence(w, agent, m, s, t).0 == s
  {
    if Bound(w, m) {
      FirstIsFound(w, agent, m.connectionId.value);
    }
  }

  /**
   * The connector is called exactly for a complete mapping to a connection that is there, nobody else's project's,
   * with the operation on its list and on that of the agent's authorization for it, within the budget, under a
   * policy that allows it, and with a driver and a credential.
   */
  lemma ExecutesExactlyWhen(w: World, agent: Agent, m: Mapping, s: RateLimiter.State, t: int)
    ensures Sequence(w, agent, m, s, t).1.None? <==>
              && ReachesBudget(w, agent, m)
              && HasBudget(w, agent.id, m.connectionId.value, s, t)
              && (w.policy.Some? ==> PolicySays(w, agent, m, Allow))
              && w.connections[m.connectionId.value].platform in w.drivers
              && m.connectionId.value in w.credentials
  {
    if Bound(w, m) {
      FirstIsFound(w, agent, m.connectionId.value);
    }
  }

  /** Only one authorization is the first for the connection. */
  lemma FirstIsFound(w: World, agent: Agent, connectionId: string)
    ensures var found := Find(Authorizations(w, agent), connectionId);
            && (found.Some? ==> found.value in w.authorizations[agent.id]
                                && Authorizes(w, agent.id, found.value, connectionId))
            && (forall a :: Authorizes(w, agent.id, a, connectionId) ==> found == Some(a))
  {
    var all, found := Authorizations(w, agent), Find(Authorizations(w, agent), connectionId);
    if found.Some? {
      var k := FindIsFirst(all, connectionId);
    }
    forall a | Authorizes(w, agent.id, a, connectionId) ensures found == Some(a) {
      var i :| 0 <= i < |all| && IsFirst(all, i, a);
      assert all[i] in all;
      var k :| 0 <= k < |all| && IsFirst(all, k, found.value);
    }
  }

  /** The refusal of a request that is bound for a connection has its reason in the rows it names. */
  predicate ExplainsBound(error: Error, w: World, agent: Agent, m: Mapping, s: RateLimiter.State, t: int)
    requires Bound(w, m)
  {
    var connectionId, operation := m.connectionId.value, m.operation.value;
    var connection := w.connections[connectionId];
    match error
    case NoMapping => false
    case ConnectionNotFound => false
    case OtherProject =>
      connection.projectId.Some? && connection.projectId.value != "" && connection.projectId != agent.projectId
    case NotOnConnection => !OnList(connection.allowed, operation)
    case ConnectionNotAuthorized =>
      IsRestricted(w, agent.id) && forall a :: a in w.authorizations[agent.id] ==> a.connectionId != connectionId
    case OperationNotAuthorized =>
      && IsRestricted(w, agent.id)
      && exists a :: a in w.authorizations[agent.id] && Authorizes(w, agent.id, a, connectionId)
                     && !OnList(a.allowed, operation)
    case RateLimited(_) => !HasBudget(w, agent.id, connectionId, s, t)
    case ApprovalRequired => PolicySays(w, agent, m, RequireApproval)
    case PolicyDenied => PolicySays(w, agent, m, Deny)
    case NoDriver => connection.platform !in w.drivers
    case CredentialMissing => connectionId !in w.credentials
  }

  predicate Explains(error: Error, w: World, agent: Agent, m: Mapping, s: RateLimiter.State, t: int) {
    if Bound(w, m) then ExplainsBound(error, w, agent, m, s, t)
    else if NonEmpty(m.connectionId) && NonEmpty(m.operation) then error == ConnectionNotFound
    else error == NoMapping
  }

  lemma RefusalHasItsReason(w: World, agent: Agent, m: Mapping, s: RateLimiter.State, t: int)
    ensures var error := Sequence(w, agent, m, s, t).1; error.Some? ==> Explains(error.value, w, agent, m, s, t)
  {
    if Bound(w, m) {
      FirstIsFound(w, agent, m.connectionId.value);
    }
  }

  // ---------------------------------------------------------------- the proxy

  class ConnectionProxy {
    var rateBuckets: RateLimiter.Buckets
    var lastSweep: int

    ghost function Rates(): RateLimiter.State
      reads this
    {
      RateLimiter.State(rateBuckets, lastSweep)
    }

    constructor (now: int)
      ensures Rates() == RateLimiter.State(map[], now)
    {
      rateBuckets, lastSweep := map[], now;
    }

    method Sweep(now: int)
      modifies this
      ensures Rates() == if RateLimiter.SweepDue(RateLimiter.FromWindow, WINDOW, old(lastSweep), now)
                         then RateLimiter.State(RateLimiter.Swept(old(rateBuckets), now), now) else old(Rates())
    {
      if now - lastSweep < WINDOW {
        return;
      }
      var todo := rateBuckets.Keys;
      while todo != {}
        invariant todo <= old(rateBuckets).Keys && lastSweep == old(lastSweep)
        invariant rateBuckets == map k | k in old(rateBuckets) && (k in todo || old(rateBuckets)[k].resetAt > now)
                                     :: old(rateBuckets)[k]
      {
        var k :| k in todo;
        if rateBuckets[k].resetAt <= now {
          rateBuckets := rateBuckets - {k};
        }
        todo := todo - {k};
      }
      lastSweep := now;
    }

    method Count(key: string, limit: int, now: int) returns (error: Option<Error>)
      modifies this
      ensures var call := RateLimiter.Call(key, now, limit);
              var (after, answer) := RateLimiter.Check(RateLimiter.FromWindow, WINDOW, old(Rates()), call);
              Rates() == after && error == if answer.allowed then None else Some(RateLimited(answer.retryAfterSeconds))
    {
      Sweep(now);
      ghost var base := rateBuckets;
      if key !in rateBuckets || rateBuckets[key].resetAt <= now {
        rateBuckets := rateBuckets[key := RateLimiter.Bucket(0, now + WINDOW)];
      }
      var bucket := rateBuckets[key].(count := rateBuckets[key].count + 1);
      rateBuckets := rateBuckets[key := bucket];
      assert rateBuckets == base[key := bucket];
      if bucket.count > limit {
        var retryAfter := Max(1, RateLimiter.CeilDiv(bucket.resetAt - now, MILLIS));
        return Some(RateLimited(retryAfter));
      }
      return None;
    }

    method Execute(w: World, agent: Agent, m: Mapping, now: int) returns (error: Option<Error>)
      modifies this
      ensures (Rates(), error) == Sequence(w, agent, m, old(Rates()), now)
    {
      if !NonEmpty(m.connectionId) || !NonEmpty(m.operation) {
        return Some(NoMapping);
      }
      var connectionId, operation := m.connectionId.value, m.operation.value;
      if connectionId !in w.connections {
        return Some(ConnectionNotFound);
      }
      var connection := w.connections[connectionId];
      if NonEmpty(connection.projectId) && connection.projectId != agent.projectId {
        return Some(OtherProject);
      }
      if |connection.allowed| > 0 && operation !in connection.allowed {
        return Some(NotOnConnection);
      }
      var authorizations := Authorizations(w, agent);
      if |authorizations| > 0 {
        var found := Find(authorizations, connectionId);
        if found.None? {
          return Some(ConnectionNotAuthorized);
        }
        if |found.value.allowed| > 0 && operation !in found.value.allowed {
          return Some(OperationNotAuthorized);
        }
        if found.value.rateLimit.Some? && found.value.rateLimit.value > 0 {
          error := Count(KeyOf(agent.id, connectionId), found.value.rateLimit.value, now);
          if error.Some? {
            return;
          }
        }
      }
      if w.policy.Some? {
        var verdict := w.policy.value(agent.mode, m.capability, connection.platform, operation);
        if verdict != Allow {
          return Some(if verdict == RequireApproval then ApprovalRequired else PolicyDenied);
        }
      }
      if connection.platform !in w.drivers {
        return Some(NoDriver);
      }
      if connectionId !in w.credentials {
        return Some(CredentialMissing);
      }
      return None;
    }
  }

  // ---------------------------------------------------------------- the admin view

  /**
   * The `blocked` flag of a grant in the admin listing: with a connection and an operation named, it foretells the
   * verdict of the connector authorizations; with an operation missing, only whether the connection is authorized
   * at all; without a connection it is never set.
   */
  method Blocked(authorizations: seq<Authorization>, connectionId: Option<string>, operation: Option<string>)
    returns (blocked: bool)
    ensures NonEmpty(connectionId) && operation.Some? ==>
              (blocked <==> AuthorizationProblem(authorizations, connectionId.value, operation.value).Some?)
    ensures NonEmpty(connectionId) && operation.None? ==>
              (blocked <==> authorizations != [] &&
                            forall a :: a in authorizations ==> a.connectionId != connectionId.value)
    ensures !NonEmpty(connectionId) ==> !blocked
    ensures blocked == IsBlocked(authorizations, connectionId, operation)
  {
    blocked := false;
    if |authorizations| > 0 && NonEmpty(connectionId) {
      var found := Find(authorizations, connectionId.value);
      blocked :=
        || found.None?
        || (|found.value.allowed| > 0 && operation.Some? && operation.value !in found.value.allowed);
    }
  }

  /** Some request with this connection, and this operation if one is named, is refused by the authorizations. */
  predicate IsBlocked(authorizations: seq<Authorization>, connectionId: Option<string>, operation: Option<string>) {
    && NonEmpty(connectionId)
    && match operation
       case Some(name) => AuthorizationProblem(authorizations, connectionId.value, name).Some?
       case None => authorizations != [] && Find(authorizations, connectionId.value).None?
  }

  /**
   * For a grant that names a connection and an operation, whether or not the connection exists, the flag is what
   * the connector authorizations say; where the connection exists that is the verdict of their gate.
   */
  lemma BlockedIsTheAuthorizationGate(w: World, agent: Agent, m: Mapping, s: RateLimiter.State, t: int)
    requires NonEmpty(m.connectionId) && NonEmpty(m.operation)
    ensures var blocked := IsBlocked(Authorizations(w, agent), m.connectionId, m.operation);
            && (blocked <==>
                AuthorizationProblem(Authorizations(w, agent), m.connectionId.value, m.operation.value).Some?)
            && (Bound(w, m) ==> (blocked <==> Problem(Authorized, w, agent, m, s, t).Some?))
  {
  }

  /** An operation left open is flagged iff every operation would be refused because of the connection. */
  lemma OpenOperationIsBlockedIff(authorizations: seq<Authorization>, connectionId: string)
    ensures IsBlocked(authorizations, Some(connectionId), None) <==>
            connectionId != "" && forall operation ::
              AuthorizationProblem(authorizations, connectionId, operation) == Some(ConnectionNotAuthorized)
  {
    assert AuthorizationProblem(authorizations, connectionId, "") == Some(ConnectionNotAuthorized) ==>
           authorizations != [] && Find(authorizations, connectionId).None?;
  }

  /** A blocked grant, complete or not, never reaches the connector, whatever else holds. */
  lemma BlockedNeverExecutes(w: World, agent: Agent, m: Mapping, s: RateLimiter.State, t: int)
    requires IsBlocked(Authorizations(w, agent), m.connectionId, m.operation)
    ensures Sequence(w, agent, m, s, t).1.Some? && Sequence(w, agent, m, s, t).0 == s
  {
    SequenceIsOrderFree(w, agent, m, s, t);
  }

  /** The world with nothing else against the request: one open connection, no policy, a driver, a credential. */
  function Permissive(w: World, connectionId: string): World {
    World(map[connectionId := Connection(None, [], "p")], w.authorizations, None, {"p"}, {connectionId})
  }

  /**
   * For a grant that names a connection and an operation the flag decides alone: with every other gate content,
   * and a budget not yet spent, the connector is reached iff the flag is not set.
   */
  lemma BlockedDecidesAlone(w: World, agent: Agent, m: Mapping, t: int)
    requires NonEmpty(m.connectionId) && NonEmpty(m.operation)
    ensures var (_, error) := Sequence(Permissive(w, m.connectionId.value), agent, m, RateLimiter.State(map[], t), t);
            error.None? <==> !IsBlocked(Authorizations(w, agent), m.connectionId, m.operation)
  {
    assert Authorizations(Permissive(w, m.connectionId.value), agent) == Authorizations(w, agent);
  }

  // ---------------------------------------------------------------- runs

  /** One execution; the rows may have changed in any way since the last. */
  datatype Event = Event(w: World, agent: Agent, m: Mapping, t: int)

  function After(events: seq<Event>, start: int, n: nat): RateLimiter.State
    requires n <= |events|
  {
    if n == 0 then RateLimiter.State(map[], start)
    else
      var e, s := events[n - 1], After(events, start, n - 1);
      Sequence(e.w, e.agent, e.m, s, e.t).0
  }

  predicate Executed(events: seq<Event>, start: int, k: nat)
    requires k < |events|
  {
    var e := events[k];
    Sequence(e.w, e.agent, e.m, After(events, start, k), e.t).1.None?
  }

  predicate IsCounted(events: seq<Event>, start: int, k: nat)
    requires k < |events|
  {
    var e := events[k];
    Counted(e.w, e.agent, e.m, After(events, start, k), e.t)
  }

  function CountedCall(e: Event): RateLimiter.Call
    requires e.m.connectionId.Some? && Budget(e.w, e.agent, e.m).Some?
  {
    CallOf(e.agent, e.m, Budget(e.w, e.agent, e.m).value, e.t)
  }

  /** The calls the limiter sees. */
  function Calls(events: seq<Event>, start: int, n: nat): seq<RateLimiter.Call>
    requires n <= |events|
  {
    if n == 0 then []
    else if IsCounted(events, start, n - 1) then Calls(events, start, n - 1) + [CountedCall(events[n - 1])]
    else Calls(events, start, n - 1)
  }

  /** Event `k` is an execution of the agent on the connection with `a <= t <= b`. */
  predicate ExecutedFor(events: seq<Event>, start: int, k: nat, agentId: string, connectionId: string, a: int, b: int)
    requires k < |events|
  {
    var e := events[k];
    && Executed(events, start, k) && a <= e.t <= b
    && e.agent.id == agentId && e.m.connectionId == Some(connectionId)
  }

  /** Executions of the agent on the connection with `a <= t <= b`. */
  function ExecutedIn(events: seq<Event>, start: int, n: nat, agentId: string, connectionId: string, a: int,
      b: int): nat
    requires n <= |events|
  {
    if n == 0 then 0
    else
      ExecutedIn(events, start, n - 1, agentId, connectionId, a, b)
      + if ExecutedFor(events, start, n - 1, agentId, connectionId, a, b) then 1 else 0
  }

  /** Over a whole run the proxy's counters are those of the fixed-window limiter on the calls it counted. */
  lemma {:induction false} CountersAreTheLimiters(events: seq<Event>, start: int, n: nat)
    requires n <= |events|
    ensures After(events, start, n) ==
            RateLimiter.SweptAfter(RateLimiter.FromWindow, WINDOW, start, Calls(events, start, n))
  {
    if n > 0 {
      CountersAreTheLimiters(events, start, n - 1);
      var e, s := events[n - 1], After(events, start, n - 1);
      SequenceIsOrderFree(e.w, e.agent, e.m, s, e.t);
      if IsCounted(events, start, n - 1) {
        var calls := Calls(events, start, n);
        assert RateLimiter.Init(calls) == Calls(events, start, n - 1) && RateLimiter.Last(calls) == CountedCall(e);
      }
    }
  }

  ghost predicate Monotone(events: seq<Event>) {
    forall i, j :: 0 <= i < j < |events| ==> events[i].t <= events[j].t
  }

  /** Whenever this agent runs on this connection it has a budget, possibly a new one each time, of at most `max`. */
  ghost predicate LimitedTo(events: seq<Event>, agentId: string, connectionId: string, max: nat) {
    forall e :: e in events && e.agent.id == agentId && e.m.connectionId == Some(connectionId) ==>
      Budget(e.w, e.agent, e.m).Some? && Budget(e.w, e.agent, e.m).value <= max
  }

  lemma KeysAreDistinct(a1: string, c1: string, a2: string, c2: string)
    requires ':' !in a1 && ':' !in a2
    ensures KeyOf(a1, c1) == KeyOf(a2, c2) <==> a1 == a2 && c1 == c2
  {
    if KeyOf(a1, c1) == KeyOf(a2, c2) {
      IndexOfSeparator(a1, c1, ':');
      IndexOfSeparator(a2, c2, ':');
      assert a1 == KeyOf(a1, c1)[..|a1|] && c1 == KeyOf(a1, c1)[|a1| + 1..];
      assert a2 == KeyOf(a2, c2)[..|a2|] && c2 == KeyOf(a2, c2)[|a2| + 1..];
    }
  }

  lemma {:induction false} CallsAreEvents(events: seq<Event>, start: int, n: nat)
    requires n <= |events| && Monotone(events)
    ensures RateLimiter.Monotone(Calls(events, start, n))
    ensures forall c :: c in Calls(events, start, n) ==> exists i :: 0 <= i < n && IsCallOf(c, events[i])
  {
    if n > 0 {
      CallsAreEvents(events, start, n - 1);
      var before, calls := Calls(events, start, n - 1), Calls(events, start, n);
      if IsCounted(events, start, n - 1) {
        assert IsCallOf(CountedCall(events[n - 1]), events[n - 1]);
        forall j | 0 <= j < |before| ensures before[j].t <= events[n - 1].t {
          assert before[j] in before;
          var i :| 0 <= i < n - 1 && IsCallOf(before[j], events[i]);
        }
      }
    }
  }

  predicate IsCallOf(c: RateLimiter.Call, e: Event) {
    e.m.connectionId.Some? && Budget(e.w, e.agent, e.m).Some? && c == CountedCall(e)
  }

  /** No agent id contains the separator of the keys. */
  ghost predicate PlainIds(events: seq<Event>) {
    forall e: Event :: e in events ==> ':' !in e.agent.id
  }

  lemma LimitPerKey(events: seq<Event>, start: int, agentId: string, connectionId: string, max: nat)
    requires Monotone(events) && PlainIds(events) && ':' !in agentId && LimitedTo(events, agentId, connectionId, max)
    ensures RateLimiter.LimitedBy(Calls(events, start, |events|), KeyOf(agentId, connectionId), max)
  {
    CallsAreEvents(events, start, |events|);
    forall c | c in Calls(events, start, |events|) && c.key == KeyOf(agentId, connectionId) ensures c.limit <= max {
      var i :| 0 <= i < |events| && IsCallOf(c, events[i]);
      var e := events[i];
      assert e in events;
      KeysAreDistinct(e.agent.id, e.m.connectionId.value, agentId, connectionId);
    }
  }

  /** An execution under a limit was counted, and allowed. */
  lemma ExecutionIsCounted(w: World, agent: Agent, m: Mapping, s: RateLimiter.State, t: int)
    requires Sequence(w, agent, m, s, t).1.None? && m.connectionId.Some? && Budget(w, agent, m).Some?
    ensures Counted(w, agent, m, s, t)
    ensures Allows(s, CallOf(agent, m, Budget(w, agent, m).value, t))
  {
    SequenceIsOrderFree(w, agent, m, s, t);
    forall i | 0 <= i < 5 ensures Problem(GATES[i], w, agent, m, s, t).None? {
      assert GATES[i] in GATES;
    }
    PastFive(w, agent, m, s, t);
    assert GATES[5] == WithinBudget && WithinBudget in GATES;
  }

  /** How many of the calls under the key, with `a <= t <= b`, the limiter allows. */
  function AllowedOf(start: int, calls: seq<RateLimiter.Call>, key: string, a: int, b: int): nat {
    RateLimiter.AllowedIn(calls, RateLimiter.SweptAnswers(RateLimiter.FromWindow, WINDOW, start, calls), key, a, b)
  }

  lemma OneCallMore(start: int, calls: seq<RateLimiter.Call>, call: RateLimiter.Call, key: string, a: int, b: int)
    ensures var s := RateLimiter.SweptAfter(RateLimiter.FromWindow, WINDOW, start, calls);
            AllowedOf(start, calls + [call], key, a, b) ==
            AllowedOf(start, calls, key, a, b) + if call.key == key && a <= call.t <= b && Allows(s, call) then 1 else 0
  {
    RateLimiter.AllowedStep(RateLimiter.FromWindow, WINDOW, start, calls, call, key, a, b);
  }

  /** The same of the counted calls of a run. */
  function AllowedFor(events: seq<Event>, start: int, n: nat, key: string, a: int, b: int): nat
    requires n <= |events|
  {
    AllowedOf(start, Calls(events, start, n), key, a, b)
  }

  /** Event `k` is counted under the key, with `a <= t <= b`, and allowed. */
  predicate AllowedAt(events: seq<Event>, start: int, k: nat, key: string, a: int, b: int)
    requires k < |events|
  {
    && IsCounted(events, start, k) && a <= events[k].t <= b
    && CountedCall(events[k]).key == key && Allows(After(events, start, k), CountedCall(events[k]))
  }

  lemma AllowedStep(events: seq<Event>, start: int, n: nat, key: string, a: int, b: int)
    requires 0 < n <= |events|
    ensures AllowedFor(events, start, n, key, a, b) ==
            AllowedFor(events, start, n - 1, key, a, b) + if AllowedAt(events, start, n - 1, key, a, b) then 1 else 0
  {
    if IsCounted(events, start, n - 1) {
      CountersAreTheLimiters(events, start, n - 1);
      OneCallMore(start, Calls(events, start, n - 1), CountedCall(events[n - 1]), key, a, b);
    }
  }

  lemma ExecutionIsAllowed(events: seq<Event>, start: int, k: nat, agentId: string, connectionId: string, max: nat,
      a: int, b: int)
    requires k < |events| && LimitedTo(events, agentId, connectionId, max)
    requires ExecutedFor(events, start, k, agentId, connectionId, a, b)
    ensures AllowedAt(events, start, k, KeyOf(agentId, connectionId), a, b)
  {
    var e := events[k];
    assert e in events;
    ExecutionIsCounted(e.w, e.agent, e.m, After(events, start, k), e.t);
  }

  lemma {:induction false} ExecutionsWereAllowed(events: seq<Event>, start: int, n: nat, agentId: string,
      connectionId: string, max: nat, a: int, b: int)
    requires n <= |events| && LimitedTo(events, agentId, connectionId, max)
    ensures ExecutedIn(events, start, n, agentId, connectionId, a, b) <=
            AllowedFor(events, start, n, KeyOf(agentId, connectionId), a, b)
  {
    if n > 0 {
      ExecutionsWereAllowed(events, start, n - 1, agentId, connectionId, max, a, b);
      AllowedStep(events, start, n, KeyOf(agentId, connectionId), a, b);
      if ExecutedFor(events, start, n - 1, agentId, connectionId, a, b) {
        ExecutionIsAllowed(events, start, n - 1, agentId, connectionId, max, a, b);
      }
    }
  }

  lemma WorstWithinOneWindow(max: nat, d: nat)
    requires d < WINDOW
    ensures RateLimiter.Worst(WINDOW, max, d) <= 2 * max
  {
    assert d / WINDOW == 0;
  }

  /**
   * Whatever else changes between requests, an agent limited to `max` on a connection executes there at most
   * `Worst` times in any span of `d` milliseconds, both ends included: at most `2 * max` in one window.
   */
  lemma ExecutionsAreBounded(events: seq<Event>, start: int, agentId: string, connectionId: string, max: nat, a: int,
      d: nat)
    requires Monotone(events) && PlainIds(events) && ':' !in agentId && LimitedTo(events, agentId, connectionId, max)
    ensures ExecutedIn(events, start, |events|, agentId, connectionId, a, a + d) <= RateLimiter.Worst(WINDOW, max, d)
    ensures d < WINDOW ==> ExecutedIn(events, start, |events|, agentId, connectionId, a, a + d) <= 2 * max
  {
    var calls, key := Calls(events, start, |events|), KeyOf(agentId, connectionId);
    CallsAreEvents(events, start, |events|);
    LimitPerKey(events, start, agentId, connectionId, max);
    ExecutionsWereAllowed(events, start, |events|, agentId, connectionId, max, a, a + d);
    RateLimiter.SpanBound(RateLimiter.FromWindow, WINDOW, start, max, calls, key, a, d);
    if d < WINDOW {
      WorstWithinOneWindow(max, d);
    }
  }
}
