/**
 * The staged pipeline every bearer token goes through. A stage passes, filling in the context for the stages
 * after it, or stops the run with an error. Tables other than the replay cache stand still during a run.
 *
 * Decoding gives the parts of a token; `verifies` stands for finding the principal's key and checking the
 * signature. An issuer thumbprint identifies a host, so it is written as the host's id.
 */
module Pipeline {
  import opened Common
  import Constraints
  import Grants
  import Identity
  import Lifecycle
  import ReplayCache

  datatype Claims = Claims(registered: ReplayCache.Claims, capabilities: Option<seq<string>>)

  datatype Jwt = Malformed | Jwt(typ: string, subject: Option<nat>, issuer: Option<nat>, claims: Claims)

  datatype Principal = AgentKey(agent: nat) | HostKey(host: nat)

  datatype Request = Request(token: Jwt, kind: Lifecycle.Kind, capability: Option<string>,
      args: Option<Constraints.Args>)

  /** The clock readings of the stages. */
  datatype Instants = Instants(readAt: int, putAt: int, stateAt: int, lookupAt: int)

  datatype World = World(
    config: ReplayCache.Config,
    store: Lifecycle.Store,
    grants: set<Grants.Grant>,
    verifies: (Jwt, Principal) -> bool)

  datatype Error =
    | MalformedJwt
    | WrongType
    | NoSubject
    | NoIssuer
    | AgentUnknown
    | HostUnknown
    | BadSignature
    | ClaimsMissing
    | BadClaims(reason: ReplayCache.ClaimError)
    | BadState(refusal: Lifecycle.Refusal)
    | AgentUnresolved
    | NotInToken
    | NotGranted
    | UnknownOperator
    | Violated

  datatype Stage = TypCheck | SignatureVerify | ClaimValidation | StateCheck | CapabilityConstraint

  const AGENT_STAGES := [TypCheck, SignatureVerify, ClaimValidation, StateCheck, CapabilityConstraint]

  const HOST_STAGES := [TypCheck, SignatureVerify, ClaimValidation, StateCheck]

  function TypOf(kind: Lifecycle.Kind): string {
    if kind == Lifecycle.HostToken then "host+jwt" else "agent+jwt"
  }

  datatype Resolved = Resolved(id: nat, row: Lifecycle.Agent)

  /** What stages leave for later ones. */
  datatype Context = Context(
    claims: Option<Claims>,
    host: Option<Lifecycle.HostState>,
    agent: Option<Resolved>,
    grant: Option<Grants.Grant>)

  const BLANK := Context(None, None, None, None)

  datatype Progress = Progress(ctx: Context, rows: ReplayCache.Rows, error: Option<Error>)

  // ---------------------------------------------------------------- each stage, on the context

  function TypStage(r: Request): Option<Error> {
    if r.token.Malformed? then Some(MalformedJwt)
    else if r.token.typ != TypOf(r.kind) then Some(WrongType)
    else None
  }

  function SignatureStage(w: World, r: Request, ctx: Context): Result<Context, Error> {
    if r.token.Malformed? then Err(MalformedJwt)
    else if r.kind == Lifecycle.AgentToken then
      if r.token.subject.None? then Err(NoSubject)
      else
        var id := r.token.subject.value;
        var agent := Lifecycle.FindAgent(w.store, id);
        if agent.None? then Err(AgentUnknown)
        else if !w.verifies(r.token, AgentKey(id)) then Err(BadSignature)
        else
          var host := Lifecycle.FindHost(w.store, agent.value.hostId);
          Ok(ctx.(agent := Some(Resolved(id, agent.value)), host := if host.Some? then host else ctx.host,
                  claims := Some(r.token.claims)))
    else if r.token.issuer.None? then Err(NoIssuer)
    else
      var host := Lifecycle.FindHost(w.store, r.token.issuer.value);
      if host.None? then Err(HostUnknown)
      else if !w.verifies(r.token, HostKey(r.token.issuer.value)) then Err(BadSignature)
      else Ok(ctx.(host := host, claims := Some(r.token.claims)))
  }

  function ClaimStage(w: World, at: Instants, ctx: Context, rows: ReplayCache.Rows): (Option<Error>, ReplayCache.Rows) {
    if ctx.claims.None? then (Some(ClaimsMissing), rows)
    else
      var presented := ReplayCache.Presentation(ctx.claims.value.registered, at.readAt, at.putAt);
      var (verdict, after) := ReplayCache.Validate(w.config, rows, presented);
      (if verdict.Ok? then None else Some(BadClaims(verdict.error)), after)
  }

  function StateStage(r: Request, at: Instants, ctx: Context): Option<Error> {
    var agent := if ctx.agent.Some? then Some(ctx.agent.value.row) else None;
    var refusal := Lifecycle.StateCheck(r.kind, ctx.host, agent, at.stateAt);
    if refusal.Some? then Some(BadState(refusal.value)) else None
  }

  predicate Asked(capability: Option<string>) {
    capability.Some? && capability.value != ""
  }

  ghost function CapabilityStage(w: World, r: Request, at: Instants, ctx: Context): Result<Context, Error> {
    if !Asked(r.capability) then Ok(ctx)
    else if ctx.agent.None? then Err(AgentUnresolved)
    else if ctx.claims.Some? && ctx.claims.value.capabilities.Some?
        && r.capability.value !in ctx.claims.value.capabilities.value
    then Err(NotInToken)
    else
      var grant := Grants.FindActive(w.grants, ctx.agent.value.id, r.capability.value, at.lookupAt);
      if grant.None? then Err(NotGranted)
      else if !Constraints.AllKnown(grant.value.row.constraints) then Err(UnknownOperator)
      else if !Constraints.Valid(grant.value.row.constraints, ArgsOf(r)) then Err(Violated)
      else Ok(ctx.(grant := grant))
  }

  function ArgsOf(r: Request): Constraints.Args {
    if r.args.Some? then r.args.value else map[]
  }

  // ---------------------------------------------------------------- the chain

  ghost function Execute(stage: Stage, w: World, r: Request, at: Instants, p: Progress): Progress {
    match stage
    case TypCheck => p.(error := TypStage(r))
    case SignatureVerify =>
      (match SignatureStage(w, r, p.ctx)
       case Ok(ctx) => p.(ctx := ctx)
       case Err(e) => p.(error := Some(e)))
    case ClaimValidation =>
      var (error, rows) := ClaimStage(w, at, p.ctx, p.rows); p.(error := error, rows := rows)
    case StateCheck => p.(error := StateStage(r, at, p.ctx))
    case CapabilityConstraint =>
      match CapabilityStage(w, r, at, p.ctx)
      case Ok(ctx) => p.(ctx := ctx)
      case Err(e) => p.(error := Some(e))
  }

  /** After an error the stages that are left do nothing. */
  ghost function RunStages(stages: seq<Stage>, w: World, r: Request, at: Instants, rows: ReplayCache.Rows): Progress {
    if stages == [] then Progress(BLANK, rows, None)
    else
      var p := RunStages(stages[..|stages| - 1], w, r, at, rows);
      if p.error.Some? then p else Execute(stages[|stages| - 1], w, r, at, p)
  }

  class AuthContext {
    const request: Request
    var claims: Option<Claims>
    var host: Option<Lifecycle.HostState>
    var agent: Option<Resolved>
    var grant: Option<Grants.Grant>

    ghost function Contents(): Context
      reads this
    {
      Context(claims, host, agent, grant)
    }

    constructor (request: Request)
      ensures this.request == request && Contents() == BLANK
    {
      this.request := request;
      claims, host, agent, grant := None, None, None, None;
    }
  }

  class JwtPipeline {
    const stages: seq<Stage>
    const claimStage: ReplayCache.ClaimValidationStage
    const engine: Constraints.ConstraintEngine
    const grants: Grants.GrantService

    constructor (stages: seq<Stage>, claimStage: ReplayCache.ClaimValidationStage,
                 engine: Constraints.ConstraintEngine, grants: Grants.GrantService)
      ensures this.stages == stages && this.claimStage == claimStage && this.engine == engine && this.grants == grants
    {
      this.stages, this.claimStage, this.engine, this.grants := stages, claimStage, engine, grants;
    }

    /** The world is the one this pipeline is wired to. */
    ghost predicate Wired(w: World)
      reads grants
    {
      w.config == claimStage.config && w.grants == grants.grants && Grants.OnePerPair(w.grants)
    }

    ghost function ProgressOf(ctx: AuthContext, error: Option<Error>): Progress
      reads ctx, claimStage.cache
    {
      Progress(ctx.Contents(), claimStage.cache.rows, error)
    }

    method VerifySignature(w: World, ctx: AuthContext) returns (error: Option<Error>)
      modifies ctx
      ensures match SignatureStage(w, ctx.request, old(ctx.Contents()))
              case Ok(after) => error.None? && ctx.Contents() == after
              case Err(e) => error == Some(e) && ctx.Contents() == old(ctx.Contents())
    {
      var token := ctx.request.token;
      if token.Malformed? {
        return Some(MalformedJwt);
      }
      if ctx.request.kind == Lifecycle.AgentToken {
        if token.subject.None? {
          return Some(NoSubject);
        }
        var agent := Lifecycle.FindAgent(w.store, token.subject.value);
        if agent.None? {
          return Some(AgentUnknown);
        }
        if !w.verifies(token, AgentKey(token.subject.value)) {
          return Some(BadSignature);
        }
        ctx.agent := Some(Resolved(token.subject.value, agent.value));
        var host := Lifecycle.FindHost(w.store, agent.value.hostId);
        if host.Some? {
          ctx.host := host;
        }
        ctx.claims := Some(token.claims);
        return None;
      }
      if token.issuer.None? {
        return Some(NoIssuer);
      }
      var host := Lifecycle.FindHost(w.store, token.issuer.value);
      if host.None? {
        return Some(HostUnknown);
      }
      if !w.verifies(token, HostKey(token.issuer.value)) {
        return Some(BadSignature);
      }
      ctx.host := host;
      ctx.claims := Some(token.claims);
      return None;
    }

    method CheckCapability(w: World, ctx: AuthContext, at: Instants) returns (error: Option<Error>)
      requires Wired(w)
      modifies ctx
      ensures match CapabilityStage(w, ctx.request, at, old(ctx.Contents()))
              case Ok(after) => error.None? && ctx.Contents() == after
              case Err(e) => error == Some(e) && ctx.Contents() == old(ctx.Contents())
    {
      if !Asked(ctx.request.capability) {
        return None;
      }
      var capability := ctx.request.capability.value;
      if ctx.agent.None? {
        return Some(AgentUnresolved);
      }
      if ctx.claims.Some? && ctx.claims.value.capabilities.Some? && capability !in ctx.claims.value.capabilities.value {
        return Some(NotInToken);
      }
      Grants.FindActiveFinds(w.grants, ctx.agent.value.id, capability, at.lookupAt);
      var grant := grants.Lookup(ctx.agent.value.id, capability, at.lookupAt);
      if grant.None? {
        return Some(NotGranted);
      }
      var violations := engine.Validate(grant.value.row.constraints, ArgsOf(ctx.request));
      if violations.Err? {
        return Some(UnknownOperator);
      }
      if violations.value != [] {
        return Some(Violated);
      }
      ctx.grant := grant;
      return None;
    }

    method ExecuteStage(stage: Stage, w: World, ctx: AuthContext, at: Instants) returns (error: Option<Error>)
      requires Wired(w)
      modifies ctx, claimStage.cache
      ensures ProgressOf(ctx, error) == Execute(stage, w, ctx.request, at, old(ProgressOf(ctx, None)))
    {
      match stage
      case TypCheck => error := TypStage(ctx.request);
      case SignatureVerify => error := VerifySignature(w, ctx);
      case ClaimValidation =>
        if ctx.claims.None? {
          return Some(ClaimsMissing);
        }
        var verdict := claimStage.Execute(ctx.claims.value.registered, at.readAt, at.putAt);
        error := if verdict.Ok? then None else Some(BadClaims(verdict.error));
      case StateCheck => error := StateStage(ctx.request, at, Context(ctx.claims, ctx.host, ctx.agent, ctx.grant));
      case CapabilityConstraint => error := CheckCapability(w, ctx, at);
    }

    /** The stages in their order, up to the first that stops the run. */
    method Run(w: World, ctx: AuthContext, at: Instants) returns (error: Option<Error>)
      requires Wired(w) && ctx.Contents() == BLANK
      modifies ctx, claimStage.cache
      ensures ProgressOf(ctx, error) == RunStages(stages, w, ctx.request, at, old(claimStage.cache.rows))
    {
      ghost var rows := claimStage.cache.rows;
      error := None;
      for i := 0 to |stages|
        invariant error.None?
        invariant ProgressOf(ctx, None) == RunStages(stages[..i], w, ctx.request, at, rows)
        invariant Wired(w)
      {
        assert stages[..i + 1][..i] == stages[..i];
        error := ExecuteStage(stages[i], w, ctx, at);
        if error.Some? {
          ErrorStops(stages, i + 1, w, ctx.request, at, rows);
          return;
        }
      }
      assert stages[..|stages|] == stages;
    }
  }

  lemma {:induction false} ErrorStops(stages: seq<Stage>, i: nat, w: World, r: Request, at: Instants,
      rows: ReplayCache.Rows)
    requires i <= |stages| && RunStages(stages[..i], w, r, at, rows).error.Some?
    ensures RunStages(stages, w, r, at, rows) == RunStages(stages[..i], w, r, at, rows)
    decreases |stages| - i
  {
    if i == |stages| {
      assert stages[..i] == stages;
    } else {
      assert stages[..i + 1][..i] == stages[..i];
      ErrorStops(stages, i + 1, w, r, at, rows);
    }
  }

  // ---------------------------------------------------------------- the verdict, without any order

  /** What is wrong with the request from the point of view of one stage, read off the request and the tables. */
  ghost function Problem(stage: Stage, w: World, r: Request, at: Instants, rows: ReplayCache.Rows): Option<Error>
    requires r.token.Jwt?
  {
    match stage
    case TypCheck => if r.token.typ == TypOf(r.kind) then None else Some(WrongType)
    case SignatureVerify => SignatureProblem(w, r)
    case ClaimValidation =>
      var verdict := ReplayCache.Validate(w.config, rows, Presented(r, at)).0;
      if verdict.Ok? then None else Some(BadClaims(verdict.error))
    case StateCheck => StateProblem(w, r, at)
    case CapabilityConstraint => CapabilityProblem(w, r, at)
  }

  function Presented(r: Request, at: Instants): ReplayCache.Presentation
    requires r.token.Jwt?
  {
    ReplayCache.Presentation(r.token.claims.registered, at.readAt, at.putAt)
  }

  function SignatureProblem(w: World, r: Request): Option<Error>
    requires r.token.Jwt?
  {
    if r.kind == Lifecycle.AgentToken then
      if r.token.subject.None? then Some(NoSubject)
      else if r.token.subject.value >= |w.store.agents| then Some(AgentUnknown)
      else if w.verifies(r.token, AgentKey(r.token.subject.value)) then None
      else Some(BadSignature)
    else if r.token.issuer.None? then Some(NoIssuer)
    else if r.token.issuer.value >= |w.store.hosts| then Some(HostUnknown)
    else if w.verifies(r.token, HostKey(r.token.issuer.value)) then None
    else Some(BadSignature)
  }

  function StateProblem(w: World, r: Request, at: Instants): Option<Error>
    requires r.token.Jwt?
  {
    var refusal :=
      if r.kind == Lifecycle.AgentToken then
        if r.token.subject.Some? then Lifecycle.CheckAgent(w.store, r.token.subject.value, at.stateAt)
        else Some(Lifecycle.HostUnresolved)
      else
        var host := if r.token.issuer.Some? then Lifecycle.FindHost(w.store, r.token.issuer.value) else None;
        Lifecycle.StateCheck(Lifecycle.HostToken, host, None, at.stateAt);
    if refusal.Some? then Some(BadState(refusal.value)) else None
  }

  /** Some live grant of the agent for the capability admits the arguments, and the token does not rule it out. */
  ghost function CapabilityProblem(w: World, r: Request, at: Instants): Option<Error>
    requires r.token.Jwt?
  {
    if !Asked(r.capability) then None
    else if r.token.subject.None? then Some(AgentUnresolved)
    else if r.token.claims.capabilities.Some?
        && r.capability.value !in r.token.claims.capabilities.value then Some(NotInToken)
    else
      var grant := Grants.FindActive(w.grants, r.token.subject.value, r.capability.value, at.lookupAt);
      if grant.None? then Some(NotGranted)
      else if !Constraints.AllKnown(grant.value.row.constraints) then Some(UnknownOperator)
      else if !Constraints.Valid(grant.value.row.constraints, ArgsOf(r)) then Some(Violated)
      else None
  }

  /** No stage has a problem: a conjunction, in no order. */
  ghost predicate Admitted(stages: seq<Stage>, w: World, r: Request, at: Instants, rows: ReplayCache.Rows) {
    r.token.Jwt? && forall stage :: stage in stages ==> Problem(stage, w, r, at, rows).None?
  }

  /** The error is that of the first stage with a problem. */
  ghost predicate IsFirstProblem(stages: seq<Stage>, w: World, r: Request, at: Instants, rows: ReplayCache.Rows,
      error: Error) {
    if r.token.Malformed? then error == MalformedJwt
    else
      exists i :: 0 <= i < |stages| && Problem(stages[i], w, r, at, rows) == Some(error)
                  && forall j :: 0 <= j < i ==> Problem(stages[j], w, r, at, rows).None?
  }

  /** The token is genuine and its claims hold: only then may its jti be used up. */
  ghost predicate Genuine(w: World, r: Request, at: Instants, rows: ReplayCache.Rows) {
    && r.token.Jwt?
    && Problem(TypCheck, w, r, at, rows).None?
    && Problem(SignatureVerify, w, r, at, rows).None?
    && Problem(ClaimValidation, w, r, at, rows).None?
  }

  /** The replay rows with the token's jti recorded for its window. */
  function Burned(w: World, r: Request, rows: ReplayCache.Rows): ReplayCache.Rows
    requires r.token.Jwt? && r.token.claims.registered.exp.Some?
  {
    var claims := r.token.claims.registered;
    rows[claims.jti := ReplayCache.WindowEnd(w.config, claims)]
  }

  ghost function Then(stage: Stage, w: World, r: Request, at: Instants, p: Progress): Progress {
    if p.error.Some? then p else Execute(stage, w, r, at, p)
  }

  ghost function AfterThree(w: World, r: Request, at: Instants, rows: ReplayCache.Rows): Progress {
    var one := Then(TypCheck, w, r, at, Progress(BLANK, rows, None));
    Then(ClaimValidation, w, r, at, Then(SignatureVerify, w, r, at, one))
  }

  lemma RunUnrolls(w: World, r: Request, at: Instants, rows: ReplayCache.Rows)
    ensures RunStages(HOST_STAGES, w, r, at, rows) == Then(StateCheck, w, r, at, AfterThree(w, r, at, rows))
    ensures RunStages(AGENT_STAGES, w, r, at, rows) ==
            Then(CapabilityConstraint, w, r, at, RunStages(HOST_STAGES, w, r, at, rows))
  {
    assert AGENT_STAGES[..4] == HOST_STAGES;
    var three := [TypCheck, SignatureVerify, ClaimValidation];
    assert HOST_STAGES[..3] == three;
    assert three[..2] == [TypCheck, SignatureVerify];
    assert [TypCheck, SignatureVerify][..1] == [TypCheck];
    assert [TypCheck][..0] == [];
    assert RunStages([TypCheck], w, r, at, rows) == Then(TypCheck, w, r, at, Progress(BLANK, rows, None));
    assert RunStages([TypCheck, SignatureVerify], w, r, at, rows) ==
           Then(SignatureVerify, w, r, at, RunStages([TypCheck], w, r, at, rows));
    assert RunStages(three, w, r, at, rows) == AfterThree(w, r, at, rows);
  }

  /** What the first three stages establish for the later ones. */
  lemma ThreeStages(w: World, r: Request, at: Instants, rows: ReplayCache.Rows)
    ensures var p := AfterThree(w, r, at, rows);
            && (p.error.None? <==> Genuine(w, r, at, rows))
            && (p.error.Some? ==> IsFirstProblem(HOST_STAGES[..3], w, r, at, rows, p.error.value))
            && p.rows == (if Genuine(w, r, at, rows)
                          then Burned(w, r, rows)
                          else rows)
            && (Genuine(w, r, at, rows) ==>
                  && p.ctx.claims == Some(r.token.claims) && p.ctx.grant.None?
                  && if r.kind == Lifecycle.AgentToken then
                       var id := r.token.subject.value;
                       && id < |w.store.agents| && p.ctx.agent == Some(Resolved(id, w.store.agents[id]))
                       && p.ctx.host == Lifecycle.FindHost(w.store, w.store.agents[id].hostId)
                     else p.ctx.agent.None? && p.ctx.host == Lifecycle.FindHost(w.store, r.token.issuer.value))
  {
    var stages := HOST_STAGES[..3];
    assert stages[0] == TypCheck && stages[1] == SignatureVerify && stages[2] == ClaimValidation;
    var p := AfterThree(w, r, at, rows);
    if r.token.Jwt? && p.error.Some? {
      var i := if Problem(TypCheck, w, r, at, rows).Some? then 0
               else if Problem(SignatureVerify, w, r, at, rows).Some? then 1 else 2;
      assert Problem(stages[i], w, r, at, rows) == p.error;
    }
  }

  lemma FirstProblemExtends(stages: seq<Stage>, n: nat, w: World, r: Request, at: Instants, rows: ReplayCache.Rows,
      error: Error)
    requires n <= |stages| && IsFirstProblem(stages[..n], w, r, at, rows, error)
    ensures IsFirstProblem(stages, w, r, at, rows, error)
  {
    if r.token.Jwt? {
      var i :| 0 <= i < n && Problem(stages[..n][i], w, r, at, rows) == Some(error)
               && forall j :: 0 <= j < i ==> Problem(stages[..n][j], w, r, at, rows).None?;
      assert Problem(stages[i], w, r, at, rows) == Some(error);
      forall j | 0 <= j < i ensures Problem(stages[j], w, r, at, rows).None? {
        assert stages[..n][j] == stages[j];
      }
    }
  }

  lemma LastProblem(stages: seq<Stage>, w: World, r: Request, at: Instants, rows: ReplayCache.Rows, error: Error)
    requires stages != [] && r.token.Jwt? && Problem(stages[|stages| - 1], w, r, at, rows) == Some(error)
    requires forall j :: 0 <= j < |stages| - 1 ==> Problem(stages[j], w, r, at, rows).None?
    ensures IsFirstProblem(stages, w, r, at, rows, error)
  {
  }

  /** Four stages, for either kind of token: the verdict, and which rows the replay cache gains. */
  lemma FourStages(w: World, r: Request, at: Instants, rows: ReplayCache.Rows)
    ensures var p := RunStages(HOST_STAGES, w, r, at, rows);
            && (p.error.None? <==> Admitted(HOST_STAGES, w, r, at, rows))
            && (p.error.Some? ==> IsFirstProblem(HOST_STAGES, w, r, at, rows, p.error.value))
            && p.rows == AfterThree(w, r, at, rows).rows && p.ctx == AfterThree(w, r, at, rows).ctx
  {
    RunUnrolls(w, r, at, rows);
    ThreeStages(w, r, at, rows);
    var p := AfterThree(w, r, at, rows);
    if p.error.Some? {
      FirstProblemExtends(HOST_STAGES, 3, w, r, at, rows, p.error.value);
      NotAdmitted(HOST_STAGES, w, r, at, rows, p.error.value);
    } else {
      assert StateStage(r, at, p.ctx) == Problem(StateCheck, w, r, at, rows);
      assert HOST_STAGES[3] == StateCheck;
      if StateStage(r, at, p.ctx).Some? {
        LastProblem(HOST_STAGES, w, r, at, rows, StateStage(r, at, p.ctx).value);
      }
    }
  }

  lemma NotAdmitted(stages: seq<Stage>, w: World, r: Request, at: Instants, rows: ReplayCache.Rows, error: Error)
    requires IsFirstProblem(stages, w, r, at, rows, error)
    ensures !Admitted(stages, w, r, at, rows)
  {
  }

  /**
   * The host pipeline: it accepts iff every check holds on its own, in no particular order, and otherwise names
   * the first that does not. A jti is used up iff type, signature and claims are all good: a forged token never
   * burns one, and a refusal after that point does.
   */
  lemma HostPipelineDecides(w: World, r: Request, at: Instants, rows: ReplayCache.Rows)
    ensures var p := RunStages(HOST_STAGES, w, r, at, rows);
            && (p.error.None? <==> Admitted(HOST_STAGES, w, r, at, rows))
            && (p.error.Some? ==> IsFirstProblem(HOST_STAGES, w, r, at, rows, p.error.value))
            && (Genuine(w, r, at, rows) ==>
                  p.rows == Burned(w, r, rows))
            && (!Genuine(w, r, at, rows) ==> p.rows == rows)
  {
    FourStages(w, r, at, rows);
    ThreeStages(w, r, at, rows);
  }

  /** The same for agents, with the grant handed on exactly when a capability was asked for and allowed. */
  lemma AgentPipelineDecides(w: World, r: Request, at: Instants, rows: ReplayCache.Rows)
    requires r.kind == Lifecycle.AgentToken
    ensures var p := RunStages(AGENT_STAGES, w, r, at, rows);
            && (p.error.None? <==> Admitted(AGENT_STAGES, w, r, at, rows))
            && (p.error.Some? ==> IsFirstProblem(AGENT_STAGES, w, r, at, rows, p.error.value))
            && (Genuine(w, r, at, rows) ==>
                  p.rows == Burned(w, r, rows))
            && (!Genuine(w, r, at, rows) ==> p.rows == rows)
            && (p.error.None? ==>
                  p.ctx.grant == if Asked(r.capability)
                                 then
                                   Grants.FindActive(w.grants, r.token.subject.value, r.capability.value, at.lookupAt)
                                 else None)
  {
    RunUnrolls(w, r, at, rows);
    FourStages(w, r, at, rows);
    ThreeStages(w, r, at, rows);
    var p := RunStages(HOST_STAGES, w, r, at, rows);
    assert AGENT_STAGES[..4] == HOST_STAGES;
    if p.error.Some? {
      FirstProblemExtends(AGENT_STAGES, 4, w, r, at, rows, p.error.value);
      NotAdmitted(AGENT_STAGES, w, r, at, rows, p.error.value);
    } else {
      var c := CapabilityStage(w, r, at, p.ctx);
      assert Problem(CapabilityConstraint, w, r, at, rows) == if c.Ok? then None else Some(c.error);
      assert AGENT_STAGES[4] == CapabilityConstraint;
      forall j | 0 <= j < 4 ensures Problem(AGENT_STAGES[j], w, r, at, rows).None? {
        assert AGENT_STAGES[j] == HOST_STAGES[j] && HOST_STAGES[j] in HOST_STAGES;
      }
      if c.Err? {
        LastProblem(AGENT_STAGES, w, r, at, rows, c.error);
      }
    }
  }

  // ---------------------------------------------------------------- the verdict, on the rows themselves

  /** A genuine token of this type and principal, for this gateway, in its time, and not used yet. */
  predicate GoodToken(w: World, r: Request, at: Instants, rows: ReplayCache.Rows, typ: string, principal: Principal) {
    && r.token.Jwt? && r.token.typ == typ && w.verifies(r.token, principal)
    && var claims := r.token.claims.registered;
       && ReplayCache.ClaimsHold(w.config, claims, at.readAt)
       && (claims.jti in rows ==> rows[claims.jti] < at.putAt)
  }

  /** The host a host's token is from. */
  predicate IsIssuer(w: World, r: Request, host: nat) {
    r.token.Jwt? && r.token.issuer == Some(host) && host < |w.store.hosts|
  }

  predicate IsSubject(w: World, r: Request, agent: nat) {
    r.token.Jwt? && r.token.subject == Some(agent) && agent < |w.store.agents|
  }

  /** A host's request is accepted iff it carries a good token of an active host. */
  lemma HostAcceptedExactlyWhen(w: World, r: Request, at: Instants, rows: ReplayCache.Rows)
    requires r.kind == Lifecycle.HostToken
    ensures RunStages(HOST_STAGES, w, r, at, rows).error.None? <==>
            exists host: nat ::
              && IsIssuer(w, r, host) && GoodToken(w, r, at, rows, "host+jwt", HostKey(host))
              && w.store.hosts[host] == Lifecycle.HostState.Active
  {
    HostPipelineDecides(w, r, at, rows);
    if Admitted(HOST_STAGES, w, r, at, rows) {
      EachStage(HOST_STAGES, w, r, at, rows);
      assert IsIssuer(w, r, r.token.issuer.value);
    }
  }

  /** With a good token the host's status alone decides, and is named. */
  lemma HostStateDecides(w: World, r: Request, at: Instants, rows: ReplayCache.Rows, host: nat)
    requires r.kind == Lifecycle.HostToken
    requires IsIssuer(w, r, host) && GoodToken(w, r, at, rows, "host+jwt", HostKey(host))
    ensures var state := w.store.hosts[host];
            RunStages(HOST_STAGES, w, r, at, rows).error ==
            if state == Lifecycle.HostState.Active then None else Some(BadState(Lifecycle.HostNotActive(state)))
  {
    HostPipelineDecides(w, r, at, rows);
    FirstThreeAreContent(w, r, at, rows);
    assert HOST_STAGES[3] == StateCheck && StateCheck in HOST_STAGES;
    var error := RunStages(HOST_STAGES, w, r, at, rows).error;
    if error.Some? {
      var i :| 0 <= i < 4 && Problem(HOST_STAGES[i], w, r, at, rows) == error;
      assert i == 3;
    }
  }

  lemma FirstThreeAreContent(w: World, r: Request, at: Instants, rows: ReplayCache.Rows)
    requires r.token.Jwt? && Genuine(w, r, at, rows)
    ensures forall i :: 0 <= i < 3 ==> Problem(HOST_STAGES[i], w, r, at, rows).None?
    ensures forall i :: 0 <= i < 3 ==> Problem(AGENT_STAGES[i], w, r, at, rows).None?
  {
    assert HOST_STAGES[0] == TypCheck && HOST_STAGES[1] == SignatureVerify && HOST_STAGES[2] == ClaimValidation;
    assert AGENT_STAGES[0] == TypCheck && AGENT_STAGES[1] == SignatureVerify && AGENT_STAGES[2] == ClaimValidation;
  }

  /** No problem at any of the stages both pipelines have. */
  lemma EachStage(stages: seq<Stage>, w: World, r: Request, at: Instants, rows: ReplayCache.Rows)
    requires HOST_STAGES <= stages && Admitted(stages, w, r, at, rows)
    ensures Genuine(w, r, at, rows) && Problem(StateCheck, w, r, at, rows).None?
  {
    assert stages[0] == HOST_STAGES[0] == TypCheck && stages[1] == HOST_STAGES[1] == SignatureVerify;
    assert stages[2] == HOST_STAGES[2] == ClaimValidation && stages[3] == HOST_STAGES[3] == StateCheck;
  }

  /** The agent is active, under an active host, and none of its clocks has run out. */
  predicate MayAct(store: Lifecycle.Store, agent: nat, now: int)
    requires agent < |store.agents|
  {
    var row := store.agents[agent];
    && row.hostId < |store.hosts| && store.hosts[row.hostId] == Lifecycle.HostState.Active
    && row.status == Lifecycle.AgentState.Active && Lifecycle.Within(row.clocks.absolute, now)
    && Lifecycle.Within(row.clocks.maximum, now) && Lifecycle.Within(row.clocks.session, now)
  }

  /** A grant that is the agent's for the capability, active, unexpired, and whose constraints admit the arguments. */
  predicate IsLiveGrant(g: Grants.Grant, agent: nat, capability: string, args: Constraints.Args, now: int) {
    && g.row.agentId == agent && g.row.capability == capability && g.row.status == Grants.Active
    && (g.row.expiresAt.Some? ==> now < g.row.expiresAt.value)
    && Constraints.AllKnown(g.row.constraints) && Constraints.Valid(g.row.constraints, args)
  }

  /** No capability is asked for, or one that the token leaves open and a live grant allows. */
  predicate MayUse(w: World, r: Request, agent: nat, now: int)
    requires r.token.Jwt?
  {
    r.capability.Some? && r.capability.value != "" ==>
      && (r.token.claims.capabilities.Some? ==> r.capability.value in r.token.claims.capabilities.value)
      && exists g :: g in w.grants && IsLiveGrant(g, agent, r.capability.value, ArgsOf(r), now)
  }

  /** It carries a good token of this agent, which may act and use the capability. */
  predicate AgentEnters(w: World, r: Request, at: Instants, rows: ReplayCache.Rows, agent: nat) {
    && IsSubject(w, r, agent) && GoodToken(w, r, at, rows, "agent+jwt", AgentKey(agent))
    && MayAct(w.store, agent, at.stateAt) && MayUse(w, r, agent, at.lookupAt)
  }

  lemma AdmittedEnters(w: World, r: Request, at: Instants, rows: ReplayCache.Rows)
    requires r.kind == Lifecycle.AgentToken && Grants.OnePerPair(w.grants) && Admitted(AGENT_STAGES, w, r, at, rows)
    ensures r.token.subject.Some? && AgentEnters(w, r, at, rows, r.token.subject.value)
  {
    assert AGENT_STAGES[..4] == HOST_STAGES;
    EachStage(AGENT_STAGES, w, r, at, rows);
    CapabilityMeans(w, r, at);
    assert CapabilityConstraint in AGENT_STAGES && Problem(CapabilityConstraint, w, r, at, rows).None?;
  }

  lemma EnteringIsAdmitted(w: World, r: Request, at: Instants, rows: ReplayCache.Rows, agent: nat)
    requires r.kind == Lifecycle.AgentToken && Grants.OnePerPair(w.grants) && AgentEnters(w, r, at, rows, agent)
    ensures Admitted(AGENT_STAGES, w, r, at, rows)
  {
    CapabilityMeans(w, r, at);
    forall stage ensures Problem(stage, w, r, at, rows).None? {
    }
  }

  /** An agent's request is accepted iff it carries a good token of an agent that may act and use the capability. */
  lemma AgentAcceptedExactlyWhen(w: World, r: Request, at: Instants, rows: ReplayCache.Rows)
    requires r.kind == Lifecycle.AgentToken && Grants.OnePerPair(w.grants)
    ensures RunStages(AGENT_STAGES, w, r, at, rows).error.None? <==>
            exists agent: nat :: AgentEnters(w, r, at, rows, agent)
  {
    AgentPipelineDecides(w, r, at, rows);
    if Admitted(AGENT_STAGES, w, r, at, rows) {
      AdmittedEnters(w, r, at, rows);
    }
    if agent: nat :| AgentEnters(w, r, at, rows, agent) {
      EnteringIsAdmitted(w, r, at, rows, agent);
    }
  }

  lemma CapabilityMeans(w: World, r: Request, at: Instants)
    requires r.token.Jwt? && r.token.subject.Some? && Grants.OnePerPair(w.grants)
    ensures CapabilityProblem(w, r, at).None? <==> MayUse(w, r, r.token.subject.value, at.lookupAt)
  {
    if Asked(r.capability) {
      Grants.FindActiveFinds(w.grants, r.token.subject.value, r.capability.value, at.lookupAt);
    }
  }

  /**
   * The token of a host is refused in every state after the host's revocation, and a good one because of it, whatever
   * happens to hosts and agents in between.
   */
  lemma RevokedHostIsRefused(l: Identity.Lifetimes, events: seq<Identity.Event>, i: nat, n: nat, host: nat, w: World,
      r: Request, at: Instants, rows: ReplayCache.Rows)
    requires i < n <= |events| && Identity.HostIsRevoked(l, events, i, host) && w.store == Identity.After(l, events, n)
    requires r.kind == Lifecycle.HostToken && IsIssuer(w, r, host)
    ensures var error := RunStages(HOST_STAGES, w, r, at, rows).error;
            && error.Some?
            && (GoodToken(w, r, at, rows, "host+jwt", HostKey(host)) ==>
                  error == Some(BadState(Lifecycle.HostNotActive(Lifecycle.HostState.Revoked))))
  {
    Identity.HostStaysRevoked(l, events, i, n, host);
    HostAcceptedExactlyWhen(w, r, at, rows);
    if GoodToken(w, r, at, rows, "host+jwt", HostKey(host)) {
      HostStateDecides(w, r, at, rows, host);
    }
  }

  /** Every refusal has its reason in the request or in the rows it names. */
  predicate Explains(error: Error, w: World, r: Request, at: Instants, rows: ReplayCache.Rows)
    requires r.token.Jwt?
  {
    var second, claims := at.readAt / MILLIS, r.token.claims.registered;
    match error
    case MalformedJwt => false
    case WrongType => r.token.typ != if r.kind == Lifecycle.HostToken then "host+jwt" else "agent+jwt"
    case NoSubject => r.kind == Lifecycle.AgentToken && r.token.subject.None?
    case NoIssuer => r.kind == Lifecycle.HostToken && r.token.issuer.None?
    case AgentUnknown =>
      r.kind == Lifecycle.AgentToken && r.token.subject.Some? && |w.store.agents| <= r.token.subject.value
    case HostUnknown =>
      r.kind == Lifecycle.HostToken && r.token.issuer.Some? && |w.store.hosts| <= r.token.issuer.value
    case BadSignature =>
      (match r.kind
       case AgentToken => r.token.subject.Some? && !w.verifies(r.token, AgentKey(r.token.subject.value))
       case HostToken => r.token.issuer.Some? && !w.verifies(r.token, HostKey(r.token.issuer.value)))
    case ClaimsMissing => false
    case BadClaims(reason) =>
      (match reason
       case WrongAudience => claims.aud != w.config.issuer
       case Expired => claims.exp.Some? ==> claims.exp.value + w.config.skew < second
       case IssuedInFuture => claims.iat.Some? ==> second + w.config.skew < claims.iat.value
       case MissingJti => claims.jti == ""
       case Replayed => claims.jti in rows && at.putAt <= rows[claims.jti])
    case BadState(refusal) => ExplainsState(refusal, w, r, at.stateAt)
    case AgentUnresolved => r.token.subject.None?
    case NotInToken =>
      && r.capability.Some? && r.token.claims.capabilities.Some?
      && r.capability.value !in r.token.claims.capabilities.value
    case _ =>
      && r.capability.Some? && r.token.subject.Some?
      && !exists g :: g in w.grants
                      && IsLiveGrant(g, r.token.subject.value, r.capability.value, ArgsOf(r), at.lookupAt)
  }

  predicate ExplainsState(refusal: Lifecycle.Refusal, w: World, r: Request, now: int)
    requires r.token.Jwt?
  {
    if r.kind == Lifecycle.HostToken then
      && r.token.issuer.Some? && r.token.issuer.value < |w.store.hosts|
      && var state := w.store.hosts[r.token.issuer.value];
         refusal == Lifecycle.HostNotActive(state) && state != Lifecycle.HostState.Active
    else
      && r.token.subject.Some? && r.token.subject.value < |w.store.agents|
      && var row := w.store.agents[r.token.subject.value];
         match refusal
         case HostUnresolved => |w.store.hosts| <= row.hostId
         case HostNotActive(state) =>
           row.hostId < |w.store.hosts| && w.store.hosts[row.hostId] == state && state != Lifecycle.HostState.Active
         case AgentUnresolved => false
         case AgentNotActive(status) => row.status == status && status != Lifecycle.AgentState.Active
         case AbsoluteExceeded => !Lifecycle.Within(row.clocks.absolute, now)
         case MaximumExceeded => !Lifecycle.Within(row.clocks.maximum, now)
         case SessionExpired => !Lifecycle.Within(row.clocks.session, now)
  }

  lemma RefusalHasItsReason(w: World, r: Request, at: Instants, rows: ReplayCache.Rows)
    requires Grants.OnePerPair(w.grants)
    ensures var error := RunStages(StagesFor(r.kind), w, r, at, rows).error;
            error.Some? ==> if r.token.Malformed? then error == Some(MalformedJwt)
                            else Explains(error.value, w, r, at, rows)
  {
    var stages := StagesFor(r.kind);
    var error := RunStages(stages, w, r, at, rows).error;
    if r.kind == Lifecycle.HostToken {
      HostPipelineDecides(w, r, at, rows);
    } else {
      AgentPipelineDecides(w, r, at, rows);
    }
    if error.Some? && r.token.Jwt? {
      var i :| 0 <= i < |stages| && Problem(stages[i], w, r, at, rows) == error
               && forall j :: 0 <= j < i ==> Problem(stages[j], w, r, at, rows).None?;
      if i > 1 {
        assert stages[1] == SignatureVerify;
      }
      ProblemHasItsReason(stages[i], w, r, at, rows);
    }
  }

  lemma ProblemHasItsReason(stage: Stage, w: World, r: Request, at: Instants, rows: ReplayCache.Rows)
    requires r.token.Jwt? && Problem(stage, w, r, at, rows).Some? && Grants.OnePerPair(w.grants)
    requires stage in {StateCheck, CapabilityConstraint} ==> Problem(SignatureVerify, w, r, at, rows).None?
    ensures Explains(Problem(stage, w, r, at, rows).value, w, r, at, rows)
  {
    if stage == CapabilityConstraint && Asked(r.capability) && r.token.subject.Some? {
      Grants.FindActiveFinds(w.grants, r.token.subject.value, r.capability.value, at.lookupAt);
    }
  }

  // ---------------------------------------------------------------- one token, many runs

  /** The pipeline a route of this kind is wired to. */
  function StagesFor(kind: Lifecycle.Kind): seq<Stage> {
    if kind == Lifecycle.HostToken then HOST_STAGES else AGENT_STAGES
  }

  /**
   * One run of the host or the agent pipeline, as the route demands (the other tables may have changed in any
   * way since the last), or a purge.
   */
  datatype Event = Login(w: World, r: Request, at: Instants) | Purge(now: int)

  ghost function NextRows(rows: ReplayCache.Rows, e: Event): ReplayCache.Rows {
    match e
    case Login(w, r, at) => RunStages(StagesFor(r.kind), w, r, at, rows).rows
    case Purge(now) => ReplayCache.Purged(rows, now)
  }

  ghost function RowsAfter(events: seq<Event>, n: nat): ReplayCache.Rows
    requires n <= |events|
  {
    if n == 0 then map[] else NextRows(RowsAfter(events, n - 1), events[n - 1])
  }

  ghost predicate AcceptedAt(events: seq<Event>, k: nat)
    requires k < |events|
  {
    var e := events[k];
    e.Login? && RunStages(StagesFor(e.r.kind), e.w, e.r, e.at, RowsAfter(events, k)).error.None?
  }

  /** The run gets as far as the claims. */
  predicate Reaches(w: World, r: Request) {
    r.token.Jwt? && r.token.typ == TypOf(r.kind) && SignatureProblem(w, r).None?
  }

  /** What the replay cache sees of an event. */
  function Seen(e: Event): Option<ReplayCache.Event> {
    match e
    case Login(w, r, at) => if Reaches(w, r) then Some(ReplayCache.Present(Presented(r, at))) else None
    case Purge(now) => Some(ReplayCache.Purge(now))
  }

  /** What the cache sees of the first `n` events, in order. */
  function Trace(events: seq<Event>, n: nat): seq<ReplayCache.Event>
    requires n <= |events|
  {
    if n == 0 then []
    else if Seen(events[n - 1]).Some? then Trace(events, n - 1) + [Seen(events[n - 1]).value]
    else Trace(events, n - 1)
  }

  function StoreTime(e: Event): int {
    match e
    case Login(_, _, at) => at.putAt
    case Purge(now) => now
  }

  /** One configuration, and the store sees the events in the order of their times. */
  ghost predicate InOrder(events: seq<Event>, config: ReplayCache.Config) {
    && (forall e: Event :: e in events && e.Login? ==> e.w.config == config)
    && (forall i, j :: 0 <= i < j < |events| ==> StoreTime(events[i]) <= StoreTime(events[j]))
  }

  lemma {:induction false} PrefixDecides(config: ReplayCache.Config, a: seq<ReplayCache.Event>,
      b: seq<ReplayCache.Event>, n: nat)
    requires n <= |a| <= |b| && a == b[..|a|]
    ensures ReplayCache.RowsAfter(config, a, n) == ReplayCache.RowsAfter(config, b, n)
  {
    if n > 0 {
      PrefixDecides(config, a, b, n - 1);
    }
  }

  /** A run that reaches the claims changes the rows exactly as the claim stage does. */
  lemma ClaimsTouchRows(w: World, r: Request, at: Instants, rows: ReplayCache.Rows)
    requires Reaches(w, r)
    ensures var verdict := ReplayCache.Validate(w.config, rows, Presented(r, at));
            && (Genuine(w, r, at, rows) <==> verdict.0.Ok?)
            && (Genuine(w, r, at, rows) ==>
                  verdict.1 == Burned(w, r, rows))
            && (!Genuine(w, r, at, rows) ==> verdict.1 == rows)
  {
  }

  /** One run of either pipeline changes the rows as the claim stage does, if it gets there, and not otherwise. */
  lemma RunTouchesRows(w: World, r: Request, at: Instants, rows: ReplayCache.Rows)
    ensures var p := RunStages(StagesFor(r.kind), w, r, at, rows);
            && p.rows == (if Reaches(w, r) then ReplayCache.Validate(w.config, rows, Presented(r, at)).1 else rows)
            && (p.error.None? ==> Genuine(w, r, at, rows))
  {
    if r.kind == Lifecycle.HostToken {
      HostPipelineDecides(w, r, at, rows);
      assert HOST_STAGES[0] == TypCheck && HOST_STAGES[1] == SignatureVerify && HOST_STAGES[2] == ClaimValidation;
    } else {
      AgentPipelineDecides(w, r, at, rows);
      assert AGENT_STAGES[0] == TypCheck && AGENT_STAGES[1] == SignatureVerify && AGENT_STAGES[2] == ClaimValidation;
    }
    if Reaches(w, r) {
      ClaimsTouchRows(w, r, at, rows);
    }
  }

  lemma SeeOne(config: ReplayCache.Config, before: seq<ReplayCache.Event>, e: ReplayCache.Event)
    ensures var trace := before + [e];
            ReplayCache.RowsAfter(config, trace, |trace|) ==
            ReplayCache.Next(config, ReplayCache.RowsAfter(config, before, |before|), e)
  {
    var trace := before + [e];
    PrefixDecides(config, before, trace, |before|);
  }

  /** The rows of the cache after the first `n` events, as it sees them. */
  ghost function CacheRows(config: ReplayCache.Config, events: seq<Event>, n: nat): ReplayCache.Rows
    requires n <= |events|
  {
    ReplayCache.RowsAfter(config, Trace(events, n), |Trace(events, n)|)
  }

  lemma CacheSeesOneMore(config: ReplayCache.Config, events: seq<Event>, n: nat)
    requires n < |events|
    ensures CacheRows(config, events, n + 1) ==
            var rows := CacheRows(config, events, n);
            if Seen(events[n]).Some? then ReplayCache.Next(config, rows, Seen(events[n]).value) else rows
  {
    if Seen(events[n]).Some? {
      SeeOne(config, Trace(events, n), Seen(events[n]).value);
    }
  }

  lemma EventTouchesRows(config: ReplayCache.Config, e: Event, rows: ReplayCache.Rows)
    requires e.Login? ==> e.w.config == config
    ensures NextRows(rows, e) == if Seen(e).Some? then ReplayCache.Next(config, rows, Seen(e).value) else rows
  {
    if e.Login? {
      RunTouchesRows(e.w, e.r, e.at, rows);
    }
  }

  /** The pipeline's replay rows are those of the cache run on the genuine tokens and the purges. */
  lemma {:induction false} RowsAreTheCaches(events: seq<Event>, n: nat, config: ReplayCache.Config)
    requires n <= |events| && InOrder(events, config)
    ensures RowsAfter(events, n) == CacheRows(config, events, n)
  {
    if n > 0 {
      var e := events[n - 1];
      assert e in events;
      RowsAreTheCaches(events, n - 1, config);
      EventTouchesRows(config, e, RowsAfter(events, n - 1));
      CacheSeesOneMore(config, events, n - 1);
    }
  }

  lemma {:induction false} TraceGrows(events: seq<Event>, m: nat, n: nat)
    requires m <= n <= |events|
    ensures Trace(events, m) <= Trace(events, n)
  {
    if m < n {
      TraceGrows(events, m, n - 1);
    }
  }

  lemma {:induction false} TraceIsOrdered(events: seq<Event>, n: nat, config: ReplayCache.Config)
    requires n <= |events| && InOrder(events, config)
    ensures ReplayCache.Monotone(Trace(events, n))
    ensures n > 0 ==> forall s :: s in Trace(events, n) ==> ReplayCache.StoreTime(s) <= StoreTime(events[n - 1])
  {
    if n > 0 {
      TraceIsOrdered(events, n - 1, config);
      var before := Trace(events, n - 1);
      forall i | 0 <= i < |before| ensures ReplayCache.StoreTime(before[i]) <= StoreTime(events[n - 1]) {
        assert before[i] in before;
      }
    }
  }

  /** Run `k` is there for the cache to see, in the trace of the first `n` events. */
  ghost predicate SeenAt(events: seq<Event>, k: nat, n: nat)
    requires k < n <= |events|
  {
    var i, trace := |Trace(events, k)|, Trace(events, n);
    && events[k].Login? && events[k].r.token.Jwt? && |Trace(events, k + 1)| == i + 1
    && i < |trace| && trace[i] == ReplayCache.Present(Presented(events[k].r, events[k].at))
  }

  /** And the cache accepts it. */
  ghost predicate SeenAccepted(events: seq<Event>, k: nat, n: nat, config: ReplayCache.Config)
    requires k < n <= |events|
  {
    SeenAt(events, k, n) && ReplayCache.Accepted(config, Trace(events, n), |Trace(events, k)|)
  }

  /** An accepted run is an acceptance of the cache at its place in the trace. */
  lemma AcceptedIsAccepted(events: seq<Event>, k: nat, n: nat, config: ReplayCache.Config)
    requires k < n <= |events| && InOrder(events, config) && AcceptedAt(events, k)
    ensures SeenAccepted(events, k, n, config)
  {
    var e, rows := events[k], RowsAfter(events, k);
    assert e in events;
    RunTouchesRows(e.w, e.r, e.at, rows);
    var before, trace := Trace(events, k), Trace(events, n);
    TraceGrows(events, k + 1, n);
    assert trace[..|before|] == before;
    RowsAreTheCaches(events, k, config);
    PrefixDecides(config, before, trace, |before|);
  }

  lemma SeenAtMostOnce(events: seq<Event>, i: nat, k: nat, config: ReplayCache.Config)
    requires i < k < |events| && InOrder(events, config) && SeenAt(events, i, k + 1) && SeenAt(events, k, k + 1)
    requires events[i].r.token == events[k].r.token && ReplayCache.OnTheSecond(Presented(events[k].r, events[k].at))
    ensures !(SeenAccepted(events, i, k + 1, config) && SeenAccepted(events, k, k + 1, config))
  {
    TraceGrows(events, i + 1, k);
    TraceIsOrdered(events, k + 1, config);
    ReplayCache.AtMostOnce(config, Trace(events, k + 1), |Trace(events, i)|, |Trace(events, k)|);
  }

  /**
   * With time in whole seconds (the store's clock within the second the stage floored to) no token, a host's or an
   * agent's, is accepted twice, whatever other logins of either kind, forged tokens, refusals and purges come in
   * between.
   */
  lemma TokenAcceptedAtMostOnce(events: seq<Event>, i: nat, k: nat, config: ReplayCache.Config)
    requires i < k < |events| && InOrder(events, config) && events[i].Login? && events[k].Login?
    requires events[i].r.token == events[k].r.token && events[k].r.token.Jwt?
    requires ReplayCache.OnTheSecond(Presented(events[k].r, events[k].at))
    ensures !(AcceptedAt(events, i) && AcceptedAt(events, k))
  {
    if AcceptedAt(events, i) && AcceptedAt(events, k) {
      AcceptedIsAccepted(events, i, k + 1, config);
      AcceptedIsAccepted(events, k, k + 1, config);
      SeenAtMostOnce(events, i, k, config);
    }
  }
}
