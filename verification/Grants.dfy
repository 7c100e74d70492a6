/**
 * Capability grants and tasks: delete-then-insert upsert, lookup of the newest active unexpired grant,
 * self-service requests, and tasks whose grants expire or are denied with them.
 *
 * The rows of other tables an operation looks up (the agent, the connection) come in as read. One clock
 * serves the gateway and the database.
 */
module Grants {
  import opened Common
  import Constraints

  datatype GrantStatus = Active | Pending | Denied

  datatype NewGrant = NewGrant(
    agentId: nat,
    capability: string,
    connectionId: Option<string>,
    operation: Option<string>,
    taskId: Option<nat>,
    status: GrantStatus,
    constraints: Constraints.Record,
    grantedBy: Option<nat>,
    expiresAt: Option<int>)

  datatype Grant = Grant(id: nat, row: NewGrant, createdAt: int)

  datatype TaskStatus = Running | Completed

  datatype Task = Task(agentId: nat, hostId: nat, status: TaskStatus, expiresAt: Option<int>, completedAt: Option<int>)

  /** Tasks are never deleted, so a task's id is its position. Grant ids come from a counter. */
  datatype Ledger = Ledger(grants: set<Grant>, tasks: seq<Task>, nextId: nat)

  const EMPTY := Ledger({}, [], 0)

  /** What an operation reads of an agent and of a connection. */
  datatype Owner = Owner(hostId: nat, projectId: Option<string>)

  datatype Connection = Connection(projectId: Option<string>)

  datatype Error = AgentNotFound | Unauthorized | OtherProject | TaskNotFound

  datatype CapabilityRequest = CapabilityRequest(name: string, constraints: Constraints.Record)

  datatype Spec = Spec(capability: string, connectionId: Option<string>, operation: Option<string>,
      constraints: Constraints.Record)

  // ---------------------------------------------------------------- the repository

  predicate IsFor(g: Grant, agentId: nat, capability: string) {
    g.row.agentId == agentId && g.row.capability == capability
  }

  predicate Live(g: Grant, now: int) {
    g.row.status == Active && (g.row.expiresAt.Some? ==> g.row.expiresAt.value > now)
  }

  function Inserted(l: Ledger, row: NewGrant, now: int): Grant {
    Grant(l.nextId, row, now)
  }

  /** Delete the pair's rows, insert this one. */
  function Upsert(l: Ledger, row: NewGrant, now: int): Ledger {
    var kept := set g | g in l.grants && !IsFor(g, row.agentId, row.capability);
    Ledger(kept + {Inserted(l, row, now)}, l.tasks, l.nextId + 1)
  }

  ghost predicate Newest(grants: set<Grant>, g: Grant, agentId: nat, capability: string, now: int) {
    && g in grants && IsFor(g, agentId, capability) && Live(g, now)
    && forall h :: h in grants && IsFor(h, agentId, capability) && Live(h, now) ==> h.createdAt <= g.createdAt
  }

  /** A newest active, unexpired grant of the pair. */
  ghost function FindActive(grants: set<Grant>, agentId: nat, capability: string, now: int): Option<Grant> {
    if g :| Newest(grants, g, agentId, capability, now) then Some(g) else None
  }

  function Deny(g: Grant): Grant {
    g.(row := g.row.(status := Denied))
  }

  function RevokedByTask(grants: set<Grant>, taskId: nat): set<Grant> {
    set g | g in grants :: if g.row.taskId == Some(taskId) && g.row.status != Denied then Deny(g) else g
  }

  // ---------------------------------------------------------------- what the operations do

  /** A project-scoped connection belongs to agents of its project only. */
  predicate CrossesProjects(connectionId: Option<string>, connection: Option<Connection>, owner: Owner) {
    && NonEmpty(connectionId) && connection.Some?
    && NonEmpty(connection.value.projectId) && connection.value.projectId != owner.projectId
  }

  function CheckOwner(owner: Option<Owner>, hostId: nat): Option<Error> {
    if owner.None? then Some(AgentNotFound)
    else if owner.value.hostId != hostId then Some(Unauthorized)
    else None
  }

  /** An operator's mapping of a capability to a connection and an operation. */
  function Mapping(hostId: nat, agentId: nat, spec: Spec): NewGrant {
    NewGrant(agentId, spec.capability, spec.connectionId, spec.operation, None, Active, spec.constraints,
             Some(hostId), None)
  }

  function Approve(l: Ledger, hostId: nat, agentId: nat, owner: Option<Owner>, connection: Option<Connection>,
                   spec: Spec, now: int): Result<Ledger, Error>
  {
    if CheckOwner(owner, hostId).Some? then Err(CheckOwner(owner, hostId).value)
    else if CrossesProjects(spec.connectionId, connection, owner.value) then Err(OtherProject)
    else Ok(Upsert(l, Mapping(hostId, agentId, spec), now))
  }

  function Unapproved(agentId: nat, request: CapabilityRequest): NewGrant {
    NewGrant(agentId, request.name, None, None, None, Pending, request.constraints, None, None)
  }

  ghost function RequestOne(l: Ledger, agentId: nat, request: CapabilityRequest, now: int): (Ledger, Grant) {
    var active := FindActive(l.grants, agentId, request.name, now);
    if active.Some? then (l, active.value)
    else
      var row := Unapproved(agentId, request);
      (Upsert(l, row, now), Inserted(l, row, now))
  }

  ghost function RequestAll(l: Ledger, agentId: nat, requests: seq<CapabilityRequest>, now: int)
    : (r: (Ledger, seq<Grant>))
    ensures |r.1| == |requests|
  {
    if requests == [] then (l, [])
    else
      var (before, answers) := RequestAll(l, agentId, requests[..|requests| - 1], now);
      var (after, answer) := RequestOne(before, agentId, requests[|requests| - 1], now);
      (after, answers + [answer])
  }

  function ForTask(hostId: nat, agentId: nat, taskId: nat, expiresAt: Option<int>, spec: Spec): NewGrant {
    NewGrant(agentId, spec.capability, spec.connectionId, spec.operation, Some(taskId), Active, spec.constraints,
             Some(hostId), expiresAt)
  }

  /** Upsert the rows one after the other; the rows as inserted, even those a later one replaced. */
  function UpsertAll(l: Ledger, rows: seq<NewGrant>, now: int): (Ledger, seq<Grant>) {
    if rows == [] then (l, [])
    else
      var (before, made) := UpsertAll(l, rows[..|rows| - 1], now);
      (Upsert(before, rows[|rows| - 1], now), made + [Inserted(before, rows[|rows| - 1], now)])
  }

  function TaskExpiry(ttlSeconds: int, now: int): Option<int> {
    if ttlSeconds > 0 then Some(now + ttlSeconds * MILLIS) else None
  }

  function TaskRows(hostId: nat, agentId: nat, taskId: nat, expiresAt: Option<int>, specs: seq<Spec>): seq<NewGrant> {
    seq(|specs|, i requires 0 <= i < |specs| => ForTask(hostId, agentId, taskId, expiresAt, specs[i]))
  }

  function CreateTask(l: Ledger, hostId: nat, agentId: nat, owner: Option<Owner>, ttlSeconds: int, specs: seq<Spec>,
      now: int)
    : Result<(Ledger, seq<Grant>), Error>
  {
    if CheckOwner(owner, hostId).Some? then Err(CheckOwner(owner, hostId).value)
    else
      var expiresAt := TaskExpiry(ttlSeconds, now);
      var begun := l.(tasks := l.tasks + [Task(agentId, hostId, Running, expiresAt, None)]);
      Ok(UpsertAll(begun, TaskRows(hostId, agentId, |l.tasks|, expiresAt, specs), now))
  }

  function CompleteTask(l: Ledger, hostId: nat, taskId: nat, now: int): Result<Ledger, Error> {
    if taskId >= |l.tasks| then Err(TaskNotFound)
    else if l.tasks[taskId].hostId != hostId then Err(Unauthorized)
    else
      var done := l.tasks[taskId].(status := Completed, completedAt := Some(now));
      Ok(l.(grants := RevokedByTask(l.grants, taskId), tasks := l.tasks[taskId := done]))
  }

  datatype Shown = ShownActive | ShownCompleted | ShownExpired

  /** What the task listing says about a task. */
  function Display(t: Task, now: int): Shown {
    if t.status == Running && t.expiresAt.Some? && t.expiresAt.value <= now then ShownExpired
    else if t.status == Running then ShownActive
    else ShownCompleted
  }

  // ---------------------------------------------------------------- the invariant

  /** At most one row per (agent, capability). */
  ghost predicate OnePerPair(grants: set<Grant>) {
    forall g, h :: g in grants && h in grants && IsFor(h, g.row.agentId, g.row.capability) ==> g == h
  }

  /**
   * A task's grant has the task's agent and expiry, and is active exactly while the task has not been completed;
   * any other grant does not expire.
   */
  ghost predicate BoundToTask(g: Grant, tasks: seq<Task>) {
    if g.row.taskId.None? then g.row.expiresAt.None?
    else
      && g.row.taskId.value < |tasks|
      && var task := tasks[g.row.taskId.value];
         && g.row.agentId == task.agentId && g.row.expiresAt == task.expiresAt
         && g.row.status == if task.status == Running then Active else Denied
  }

  ghost predicate Sound(l: Ledger) {
    OnePerPair(l.grants) && forall g :: g in l.grants ==> BoundToTask(g, l.tasks)
  }

  lemma UpsertIsSound(l: Ledger, row: NewGrant, now: int)
    requires Sound(l) && BoundToTask(Inserted(l, row, now), l.tasks)
    ensures Sound(Upsert(l, row, now))
  {
  }

  /** Under the invariant the lookup finds a live grant iff there is one, and that one. */
  lemma FindActiveFinds(grants: set<Grant>, agentId: nat, capability: string, now: int)
    requires OnePerPair(grants)
    ensures var found := FindActive(grants, agentId, capability, now);
            && (found.Some? ==>
                  found.value in grants && IsFor(found.value, agentId, capability) && Live(found.value, now))
            && (forall g :: g in grants && IsFor(g, agentId, capability) && Live(g, now) ==> found == Some(g))
  {
    forall g | g in grants && IsFor(g, agentId, capability) && Live(g, now)
      ensures Newest(grants, g, agentId, capability, now)
    {
    }
  }

  lemma {:induction false} UpsertAllIsSound(l: Ledger, rows: seq<NewGrant>, now: int)
    requires Sound(l) && forall row :: row in rows ==> BoundToTask(Grant(0, row, now), l.tasks)
    ensures Sound(UpsertAll(l, rows, now).0) && UpsertAll(l, rows, now).0.tasks == l.tasks
    ensures |UpsertAll(l, rows, now).1| == |rows|
  {
    if rows != [] {
      UpsertAllIsSound(l, rows[..|rows| - 1], now);
      var before := UpsertAll(l, rows[..|rows| - 1], now).0;
      var row := rows[|rows| - 1];
      assert row in rows && BoundToTask(Grant(0, row, now), l.tasks);
      UpsertIsSound(before, row, now);
    }
  }

  lemma OpeningIsSound(l: Ledger, task: Task)
    requires Sound(l)
    ensures Sound(l.(tasks := l.tasks + [task]))
  {
  }

  lemma CreateTaskIsSound(l: Ledger, hostId: nat, agentId: nat, owner: Option<Owner>, ttlSeconds: int,
      specs: seq<Spec>, now: int)
    requires Sound(l)
    ensures var r := CreateTask(l, hostId, agentId, owner, ttlSeconds, specs, now); r.Ok? ==> Sound(r.value.0)
  {
    var expiresAt := TaskExpiry(ttlSeconds, now);
    var task := Task(agentId, hostId, Running, expiresAt, None);
    OpeningIsSound(l, task);
    UpsertAllIsSound(l.(tasks := l.tasks + [task]), TaskRows(hostId, agentId, |l.tasks|, expiresAt, specs), now);
  }

  lemma RevokedRow(grants: set<Grant>, taskId: nat, h: Grant) returns (g: Grant)
    requires h in RevokedByTask(grants, taskId)
    ensures g in grants && h == if g.row.taskId == Some(taskId) && g.row.status != Denied then Deny(g) else g
  {
    g :| g in grants && h == if g.row.taskId == Some(taskId) && g.row.status != Denied then Deny(g) else g;
  }

  lemma CompleteTaskIsSound(l: Ledger, hostId: nat, taskId: nat, now: int)
    requires Sound(l)
    ensures var r := CompleteTask(l, hostId, taskId, now); r.Ok? ==> Sound(r.value)
  {
    var r := CompleteTask(l, hostId, taskId, now);
    if r.Ok? {
      forall h | h in r.value.grants ensures BoundToTask(h, r.value.tasks) {
        var g := RevokedRow(l.grants, taskId, h);
        assert BoundToTask(g, l.tasks);
      }
      forall h, k | h in r.value.grants && k in r.value.grants
          && IsFor(k, h.row.agentId, h.row.capability) ensures h == k {
        var g := RevokedRow(l.grants, taskId, h);
        var f := RevokedRow(l.grants, taskId, k);
        assert IsFor(f, g.row.agentId, g.row.capability);
      }
    }
  }

  // ---------------------------------------------------------------- self-service requests

  /** Nobody's authority changes, at this time or any later one. */
  ghost predicate SameAuthority(a: set<Grant>, b: set<Grant>, now: int) {
    forall agentId, capability, t :: t >= now
        ==> FindActive(a, agentId, capability, t) == FindActive(b, agentId, capability, t)
  }

  /** Only rows of the agent, for one of the names, and not live, were replaced. */
  ghost predicate OnlyReplaces(a: set<Grant>, b: set<Grant>, agentId: nat, requests: seq<CapabilityRequest>, now: int) {
    forall g :: (g in a) != (g in b) ==>
      g.row.agentId == agentId && !Live(g, now) &&
      exists i :: 0 <= i < |requests| && requests[i].name == g.row.capability
  }

  lemma RequestOneAddsNothing(l: Ledger, agentId: nat, request: CapabilityRequest, now: int)
    requires Sound(l)
    ensures var (after, answer) := RequestOne(l, agentId, request, now);
            && Sound(after) && after.tasks == l.tasks
            && SameAuthority(l.grants, after.grants, now)
            && OnlyReplaces(l.grants, after.grants, agentId, [request], now)
            && IsFor(answer, agentId, request.name)
            && answer in after.grants
            && (FindActive(l.grants, agentId, request.name, now) ==
                if answer.row.status == Active then Some(answer) else None)
            && (answer.row.status == Active || answer.row == Unapproved(agentId, request))
  {
    var (after, answer) := RequestOne(l, agentId, request, now);
    FindActiveFinds(l.grants, agentId, request.name, now);
    forall name, a, t | t >= now ensures FindActive(l.grants, a, name, t) == FindActive(after.grants, a, name, t) {
      FindActiveFinds(l.grants, a, name, t);
      FindActiveFinds(after.grants, a, name, t);
    }
    assert [request][0].name == request.name;
  }

  /** What one answer says about one request, given the authority the requests met. */
  ghost predicate Answers(grants: set<Grant>, agentId: nat, request: CapabilityRequest, answer: Grant, now: int) {
    var active := FindActive(grants, agentId, request.name, now);
    if active.Some? then answer == active.value
    else
      answer.row ==
      NewGrant(agentId, request.name, None, None, None, Pending, request.constraints, None, None)
  }

  /**
   * For every list of requests, repeated names included: no lookup of anyone changes, now or later; only
   * requested pairs without a live grant are touched; and the answers come one per request, in order.
   */
  lemma {:induction false} RequestsAddNothing(l: Ledger, agentId: nat, requests: seq<CapabilityRequest>, now: int)
    requires Sound(l)
    ensures var (after, answers) := RequestAll(l, agentId, requests, now);
            && Sound(after) && after.tasks == l.tasks
            && SameAuthority(l.grants, after.grants, now)
            && OnlyReplaces(l.grants, after.grants, agentId, requests, now)
            && |answers| == |requests|
            && forall k :: 0 <= k < |requests| ==> Answers(l.grants, agentId, requests[k], answers[k], now)
  {
    if requests != [] {
      var init, last := requests[..|requests| - 1], requests[|requests| - 1];
      RequestsAddNothing(l, agentId, init, now);
      var (before, answers) := RequestAll(l, agentId, init, now);
      RequestOneAddsNothing(before, agentId, last, now);
      var (after, answer) := RequestOne(before, agentId, last, now);
      assert FindActive(l.grants, agentId, last.name, now) == FindActive(before.grants, agentId, last.name, now);
      ReplacesCompose(l.grants, before.grants, after.grants, agentId, requests, now);
    }
  }

  lemma ReplacesCompose(a: set<Grant>, b: set<Grant>, c: set<Grant>, agentId: nat, requests: seq<CapabilityRequest>,
      now: int)
    requires requests != []
    requires OnlyReplaces(a, b, agentId, requests[..|requests| - 1], now)
    requires OnlyReplaces(b, c, agentId, [requests[|requests| - 1]], now)
    ensures OnlyReplaces(a, c, agentId, requests, now)
  {
    var last := |requests| - 1;
    forall g | (g in a) != (g in c)
      ensures g.row.agentId == agentId && !Live(g, now)
      ensures exists i :: 0 <= i < |requests| && requests[i].name == g.row.capability
    {
      if (g in a) != (g in b) {
        var i :| 0 <= i < last && requests[..last][i].name == g.row.capability;
        assert requests[i].name == g.row.capability;
      } else {
        assert requests[last].name == g.row.capability;
      }
    }
  }

  // ---------------------------------------------------------------- the service

  class GrantService {
    var grants: set<Grant>
    var tasks: seq<Task>
    var nextId: nat

    ghost function Contents(): Ledger
      reads this
    {
      Ledger(grants, tasks, nextId)
    }

    constructor ()
      ensures Contents() == EMPTY
    {
      grants, tasks, nextId := {}, [], 0;
    }

    method Replace(row: NewGrant, now: int) returns (g: Grant)
      modifies this
      ensures Contents() == Upsert(old(Contents()), row, now) && g == Inserted(old(Contents()), row, now)
    {
      grants := set g | g in grants && !IsFor(g, row.agentId, row.capability);
      g := Grant(nextId, row, now);
      grants, nextId := grants + {g}, nextId + 1;
    }

    /** Scan for the pair's live grant with the latest creation time. */
    method Lookup(agentId: nat, capability: string, now: int) returns (found: Option<Grant>)
      ensures found.Some? ==> Newest(grants, found.value, agentId, capability, now)
      ensures found.None? ==> forall g :: g in grants && IsFor(g, agentId, capability) ==> !Live(g, now)
    {
      found := None;
      var todo := grants;
      while todo != {}
        invariant todo <= grants
        invariant found.Some? ==> Newest(grants - todo, found.value, agentId, capability, now)
        invariant found.None? ==> forall g :: g in grants - todo && IsFor(g, agentId, capability) ==> !Live(g, now)
      {
        var g :| g in todo;
        if IsFor(g, agentId, capability) && Live(g, now) && (found.None? || found.value.createdAt < g.createdAt) {
          found := Some(g);
        }
        todo := todo - {g};
      }
      assert grants - todo == grants;
    }

    method GrantCapability(hostId: nat, agentId: nat, owner: Option<Owner>, connection: Option<Connection>,
        spec: Spec, now: int)
      returns (r: Result<Grant, Error>)
      modifies this
      ensures match Approve(old(Contents()), hostId, agentId, owner, connection, spec, now)
              case Ok(after) => Contents() == after
                  && r == Ok(Inserted(old(Contents()), Mapping(hostId, agentId, spec), now))
              case Err(e) => Contents() == old(Contents()) && r == Err(e)
      ensures r == Err(AgentNotFound) <==> owner.None?
      ensures r == Err(Unauthorized) <==> owner.Some? && owner.value.hostId != hostId
      ensures r.Ok? <==> Owns(hostId, owner) && InProject(spec.connectionId, connection, owner.value)
      ensures r.Ok? ==> r.value in grants
      ensures r.Ok? ==>
                r.value.row ==
                NewGrant(agentId, spec.capability, spec.connectionId, spec.operation, None, Active, spec.constraints,
                         Some(hostId), None)
    {
      if owner.None? {
        return Err(AgentNotFound);
      }
      if owner.value.hostId != hostId {
        return Err(Unauthorized);
      }
      if NonEmpty(spec.connectionId) {
        if connection.Some? && NonEmpty(connection.value.projectId)
            && connection.value.projectId != owner.value.projectId {
          return Err(OtherProject);
        }
      }
      var g := Replace(Mapping(hostId, agentId, spec), now);
      return Ok(g);
    }

    method RequestCapability(agentId: nat, known: bool, requests: seq<CapabilityRequest>, now: int)
      returns (r: Result<seq<Grant>, Error>)
      requires Sound(Contents())
      modifies this
      ensures !known ==> r == Err(AgentNotFound) && Contents() == old(Contents())
      ensures known ==> r.Ok? && (Contents(), r.value) == RequestAll(old(Contents()), agentId, requests, now)
      ensures Sound(Contents())
    {
      if !known {
        return Err(AgentNotFound);
      }
      var answers: seq<Grant> := [];
      for i := 0 to |requests|
        invariant (Contents(), answers) == RequestAll(old(Contents()), agentId, requests[..i], now)
        invariant Sound(Contents())
      {
        assert requests[..i + 1][..i] == requests[..i];
        RequestOneAddsNothing(Contents(), agentId, requests[i], now);
        FindActiveFinds(grants, agentId, requests[i].name, now);
        var active := Lookup(agentId, requests[i].name, now);
        if active.Some? {
          answers := answers + [active.value];
        } else {
          var g := Replace(Unapproved(agentId, requests[i]), now);
          answers := answers + [g];
        }
      }
      assert requests[..|requests|] == requests;
      return Ok(answers);
    }

    method StartTask(hostId: nat, agentId: nat, owner: Option<Owner>, ttlSeconds: int, specs: seq<Spec>, now: int)
      returns (r: Result<seq<Grant>, Error>)
      modifies this
      ensures match CreateTask(old(Contents()), hostId, agentId, owner, ttlSeconds, specs, now)
              case Ok(outcome) => Contents() == outcome.0 && r == Ok(outcome.1)
              case Err(e) => Contents() == old(Contents()) && r == Err(e)
      ensures r == Err(AgentNotFound) <==> owner.None?
      ensures r == Err(Unauthorized) <==> owner.Some? && owner.value.hostId != hostId
      ensures r.Ok? ==>
                var end := if ttlSeconds > 0 then Some(now + ttlSeconds * MILLIS) else None;
                && tasks == old(tasks) + [Task(agentId, hostId, Running, end, None)]
                && |r.value| == |specs|
                && forall i :: 0 <= i < |specs| ==>
                     r.value[i].row ==
                     NewGrant(agentId, specs[i].capability, specs[i].connectionId, specs[i].operation,
                              Some(old(|tasks|)), Active, specs[i].constraints, Some(hostId), end)
    {
      if owner.None? {
        return Err(AgentNotFound);
      }
      if owner.value.hostId != hostId {
        return Err(Unauthorized);
      }
      var expiresAt := if ttlSeconds > 0 then Some(now + ttlSeconds * MILLIS) else None;
      var taskId := |tasks|;
      tasks := tasks + [Task(agentId, hostId, Running, expiresAt, None)];
      ghost var begun, rows := Contents(), TaskRows(hostId, agentId, taskId, expiresAt, specs);
      var made: seq<Grant> := [];
      for i := 0 to |specs|
        invariant (Contents(), made) == UpsertAll(begun, rows[..i], now)
      {
        assert rows[..i + 1][..i] == rows[..i];
        var g := Replace(ForTask(hostId, agentId, taskId, expiresAt, specs[i]), now);
        made := made + [g];
      }
      assert rows[..|specs|] == rows;
      UpsertAllKeepsTasks(begun, rows, now);
      UpsertAllAnswers(begun, rows, now);
      return Ok(made);
    }

    method FinishTask(hostId: nat, taskId: nat, now: int) returns (r: Result<Task, Error>)
      modifies this
      ensures match CompleteTask(old(Contents()), hostId, taskId, now)
              case Ok(after) => Contents() == after && r == Ok(after.tasks[taskId])
              case Err(e) => Contents() == old(Contents()) && r == Err(e)
      ensures r == Err(TaskNotFound) <==> taskId >= old(|tasks|)
      ensures r == Err(Unauthorized) <==> taskId < old(|tasks|) && old(tasks)[taskId].hostId != hostId
      ensures r.Ok? ==> r.value.status == Completed && r.value.completedAt == Some(now)
    {
      if taskId >= |tasks| {
        return Err(TaskNotFound);
      }
      if tasks[taskId].hostId != hostId {
        return Err(Unauthorized);
      }
      grants := RevokedByTask(grants, taskId);
      tasks := tasks[taskId := tasks[taskId].(status := Completed, completedAt := Some(now))];
      return Ok(tasks[taskId]);
    }
  }

  // ---------------------------------------------------------------- runs

  datatype Op =
    | Approval(hostId: nat, agentId: nat, owner: Option<Owner>, connection: Option<Connection>, spec: Spec)
    | Requests(agentId: nat, known: bool, requests: seq<CapabilityRequest>)
    | TaskCreation(hostId: nat, agentId: nat, owner: Option<Owner>, ttlSeconds: int, specs: seq<Spec>)
    | Completion(hostId: nat, taskId: nat)

  datatype Event = Event(op: Op, now: int)

  ghost function Step(l: Ledger, e: Event): Ledger {
    match e.op
    case Approval(hostId, agentId, owner, connection, spec) =>
      var r := Approve(l, hostId, agentId, owner, connection, spec, e.now); if r.Ok? then r.value else l
    case Requests(agentId, known, requests) =>
      if known then RequestAll(l, agentId, requests, e.now).0 else l
    case TaskCreation(hostId, agentId, owner, ttlSeconds, specs) =>
      var r := CreateTask(l, hostId, agentId, owner, ttlSeconds, specs, e.now); if r.Ok? then r.value.0 else l
    case Completion(hostId, taskId) =>
      var r := CompleteTask(l, hostId, taskId, e.now); if r.Ok? then r.value else l
  }

  ghost function After(events: seq<Event>, n: nat): Ledger
    requires n <= |events|
  {
    if n == 0 then EMPTY else Step(After(events, n - 1), events[n - 1])
  }

  lemma StepIsSound(l: Ledger, e: Event)
    requires Sound(l)
    ensures Sound(Step(l, e))
  {
    match e.op
    case Approval(hostId, agentId, _, _, spec) => UpsertIsSound(l, Mapping(hostId, agentId, spec), e.now);
    case Requests(agentId, _, requests) => RequestsAddNothing(l, agentId, requests, e.now);
    case TaskCreation(hostId, agentId, owner, ttlSeconds, specs) =>
      CreateTaskIsSound(l, hostId, agentId, owner, ttlSeconds, specs, e.now);
    case Completion(hostId, taskId) => CompleteTaskIsSound(l, hostId, taskId, e.now);
  }

  /** In every reachable state: one grant per pair, and every task grant shares its task's agent, expiry and fate. */
  lemma {:induction false} SoundAlong(events: seq<Event>, n: nat)
    requires n <= |events|
    ensures Sound(After(events, n))
  {
    if n > 0 {
      SoundAlong(events, n - 1);
      StepIsSound(After(events, n - 1), events[n - 1]);
    }
  }

  // ---------------------------------------------------------------- tasks, read off the history

  /** The host that asks is the agent's. */
  predicate Owns(hostId: nat, owner: Option<Owner>) {
    owner.Some? && owner.value.hostId == hostId
  }

  predicate Creates(e: Event) {
    e.op.TaskCreation? && Owns(e.op.hostId, e.op.owner)
  }

  /** How many tasks the first `n` events create; the next one gets this number. */
  function Created(events: seq<Event>, n: nat): nat
    requires n <= |events|
  {
    if n == 0 then 0 else Created(events, n - 1) + if Creates(events[n - 1]) then 1 else 0
  }

  /** The event that created the task. */
  function Creator(events: seq<Event>, n: nat, task: nat): (i: nat)
    requires n <= |events| && task < Created(events, n)
    ensures i < n && Creates(events[i]) && Created(events, i) == task
  {
    if task < Created(events, n - 1) then Creator(events, n - 1, task) else n - 1
  }

  /** When the task's own host last completed it, if it has. */
  function CompletedAt(events: seq<Event>, n: nat, task: nat): Option<int>
    requires n <= |events| && task < Created(events, n)
  {
    if task >= Created(events, n - 1) then None
    else if events[n - 1].op == Completion(events[Creator(events, n, task)].op.hostId, task)
    then Some(events[n - 1].now)
    else CompletedAt(events, n - 1, task)
  }

  /** The end of the time to live that was asked for, in milliseconds; without one a task does not expire. */
  function EndOf(e: Event): Option<int>
    requires e.op.TaskCreation?
  {
    if e.op.ttlSeconds > 0 then Some(e.now + e.op.ttlSeconds * MILLIS) else None
  }

  /** The task as the event that created it and its completions make it. */
  ghost predicate TaskTellsHistory(tasks: seq<Task>, events: seq<Event>, n: nat, task: nat)
    requires n <= |events| && task < Created(events, n)
  {
    var e, completed := events[Creator(events, n, task)], CompletedAt(events, n, task);
    && task < |tasks|
    && var status := if completed.None? then Running else Completed;
       tasks[task] == Task(e.op.agentId, e.op.hostId, status, EndOf(e), completed)
  }

  lemma StepMakesTasks(l: Ledger, e: Event)
    ensures var after := Step(l, e).tasks;
            && |after| == |l.tasks| + (if Creates(e) then 1 else 0)
            && (Creates(e) ==> after[|l.tasks|] == Task(e.op.agentId, e.op.hostId, Running, EndOf(e), None))
            && forall k :: 0 <= k < |l.tasks| ==>
                 after[k] == if e.op == Completion(l.tasks[k].hostId, k)
                             then l.tasks[k].(status := Completed, completedAt := Some(e.now)) else l.tasks[k]
  {
    match e.op
    case Approval(_, _, _, _, _) =>
    case Requests(agentId, _, requests) => RequestAllKeepsTasks(l, agentId, requests, e.now);
    case TaskCreation(hostId, agentId, owner, ttlSeconds, specs) =>
      var expiresAt := TaskExpiry(ttlSeconds, e.now);
      var task := Task(agentId, hostId, Running, expiresAt, None);
      UpsertAllKeepsTasks(l.(tasks := l.tasks + [task]), TaskRows(hostId, agentId, |l.tasks|, expiresAt, specs), e.now);
    case Completion(_, _) =>
  }

  /** There is a task for every creation by the agent's own host, with that event's expiry, open until completed. */
  lemma {:induction false} TasksTellHistory(events: seq<Event>, n: nat)
    requires n <= |events|
    ensures |After(events, n).tasks| == Created(events, n)
    ensures forall task :: 0 <= task < Created(events, n) ==> TaskTellsHistory(After(events, n).tasks, events, n, task)
  {
    if n > 0 {
      TasksTellHistory(events, n - 1);
      StepMakesTasks(After(events, n - 1), events[n - 1]);
      forall task: nat | task < Created(events, n) ensures TaskTellsHistory(After(events, n).tasks, events, n, task) {
        assert task < Created(events, n - 1) ==> TaskTellsHistory(After(events, n - 1).tasks, events, n - 1, task);
      }
    }
  }

  /** The listing: completed once its host completed it, else expired from the end of its time to live on. */
  lemma ShownExactlyWhen(events: seq<Event>, n: nat, task: nat, now: int)
    requires n <= |events| && task < Created(events, n)
    ensures task < |After(events, n).tasks|
    ensures var shown, end := Display(After(events, n).tasks[task], now), EndOf(events[Creator(events, n, task)]);
            && (shown == ShownCompleted <==> CompletedAt(events, n, task).Some?)
            && (shown == ShownExpired <==> CompletedAt(events, n, task).None? && end.Some? && end.value <= now)
            && (shown == ShownActive <==> CompletedAt(events, n, task).None? && (end.Some? ==> now < end.value))
  {
    TasksTellHistory(events, n);
    assert TaskTellsHistory(After(events, n).tasks, events, n, task);
  }

  // ---------------------------------------------------------------- authority, read off the history

  /** The connection is not another project's; no connection, and one of no project, are anybody's. */
  predicate InProject(connectionId: Option<string>, connection: Option<Connection>, owner: Owner) {
    || connectionId.None? || connectionId.value == "" || connection.None?
    || connection.value.projectId.None? || connection.value.projectId.value == ""
    || connection.value.projectId == owner.projectId
  }

  lemma ApprovalTakes(l: Ledger, hostId: nat, agentId: nat, owner: Option<Owner>, connection: Option<Connection>,
      spec: Spec, now: int)
    ensures var r := Approve(l, hostId, agentId, owner, connection, spec, now);
            && (r.Ok? <==> Owns(hostId, owner) && InProject(spec.connectionId, connection, owner.value))
            && (r == Err(AgentNotFound) <==> owner.None?)
            && (r == Err(Unauthorized) <==> owner.Some? && !Owns(hostId, owner))
  {
  }

  /** What the last of the task's entries for the capability says. */
  function LastSpec(specs: seq<Spec>, capability: string): (last: Option<Spec>)
    ensures last.Some? ==> last.value in specs && last.value.capability == capability
    ensures last.None? ==> forall spec :: spec in specs ==> spec.capability != capability
  {
    if specs == [] then None
    else if specs[|specs| - 1].capability == capability then Some(specs[|specs| - 1])
    else LastSpec(specs[..|specs| - 1], capability)
  }

  /** The event gives the agent the capability: its host approves, or starts a task that has it. */
  function Gives(e: Event, agentId: nat, capability: string): Option<Spec> {
    match e.op
    case Approval(hostId, to, owner, connection, spec) =>
      if && to == agentId && spec.capability == capability
         && Owns(hostId, owner) && InProject(spec.connectionId, connection, owner.value)
      then Some(spec) else None
    case TaskCreation(_, to, _, _, specs) =>
      if to == agentId && Creates(e) then LastSpec(specs, capability) else None
    case _ => None
  }

  function LastGift(events: seq<Event>, n: nat, agentId: nat, capability: string): (last: Option<nat>)
    requires n <= |events|
    ensures last.Some? ==> last.value < n && Gives(events[last.value], agentId, capability).Some?
    ensures forall i :: (if last.Some? then last.value + 1 else 0) <= i < n ==>
                          Gives(events[i], agentId, capability).None?
  {
    if n == 0 then None
    else if Gives(events[n - 1], agentId, capability).Some? then Some(n - 1)
    else LastGift(events, n - 1, agentId, capability)
  }

  lemma {:induction false} CreatorIs(events: seq<Event>, i: nat, n: nat)
    requires i < n <= |events| && Creates(events[i])
    ensures Created(events, i) < Created(events, n) && Creator(events, n, Created(events, i)) == i
  {
    if i + 1 < n {
      CreatorIs(events, i, n - 1);
    }
  }

  /** The grant the event gives, with the operator's own words; `task` is the number of the task it starts, if any. */
  function GivenRow(e: Event, agentId: nat, spec: Spec, task: nat): NewGrant
    requires e.op.Approval? || e.op.TaskCreation?
  {
    var (taskId, end) := if e.op.Approval? then (None, None) else (Some(task), EndOf(e));
    NewGrant(agentId, spec.capability, spec.connectionId, spec.operation, taskId, Active, spec.constraints,
             Some(e.op.hostId), end)
  }

  /**
   * What the agent holds at `now`: the last gift, unless it came with a task that has been completed or whose time
   * to live is over.
   */
  function Held(events: seq<Event>, n: nat, agentId: nat, capability: string, now: int): Option<NewGrant>
    requires n <= |events|
  {
    var last := LastGift(events, n, agentId, capability);
    if last.None? then None
    else
      var e := events[last.value];
      var row := GivenRow(e, agentId, Gives(e, agentId, capability).value, Created(events, last.value));
      if e.op.Approval? then Some(row)
      else
        CreatorIs(events, last.value, n);
        if CompletedAt(events, n, Created(events, last.value)).Some? || (EndOf(e).Some? && EndOf(e).value <= now)
        then None else Some(row)
  }

  /** What the lookup finds, without its id and creation time. */
  ghost function Found(l: Ledger, agentId: nat, capability: string, now: int): Option<NewGrant> {
    var found := FindActive(l.grants, agentId, capability, now);
    if found.Some? then Some(found.value.row) else None
  }

  /** An upsert decides its own pair and no other. */
  lemma UpsertIsFound(l: Ledger, row: NewGrant, at: int, agentId: nat, capability: string, now: int)
    requires Sound(l) && BoundToTask(Inserted(l, row, at), l.tasks)
    ensures Found(Upsert(l, row, at), agentId, capability, now) ==
            if row.agentId == agentId && row.capability == capability
            then if row.status == Active && (row.expiresAt.Some? ==> now < row.expiresAt.value) then Some(row) else None
            else Found(l, agentId, capability, now)
  {
    var after := Upsert(l, row, at);
    UpsertIsSound(l, row, at);
    FindActiveFinds(l.grants, agentId, capability, now);
    FindActiveFinds(after.grants, agentId, capability, now);
    assert Inserted(l, row, at) in after.grants;
  }

  /** A task that is open, of this agent and with this expiry. */
  predicate IsOpen(l: Ledger, taskId: nat, agentId: nat, expiresAt: Option<int>) {
    && taskId < |l.tasks| && l.tasks[taskId].agentId == agentId
    && l.tasks[taskId].status == Running && l.tasks[taskId].expiresAt == expiresAt
  }

  lemma OneTaskRow(l: Ledger, row: NewGrant, at: int, agentId: nat, capability: string, now: int)
    requires Sound(l) && row.taskId.Some? && row.status == Active
    requires IsOpen(l, row.taskId.value, row.agentId, row.expiresAt)
    ensures Sound(Upsert(l, row, at))
    ensures Found(Upsert(l, row, at), agentId, capability, now) ==
            if row.agentId == agentId && row.capability == capability
            then if row.expiresAt.Some? && row.expiresAt.value <= now then None else Some(row)
            else Found(l, agentId, capability, now)
  {
    UpsertIsSound(l, row, at);
    UpsertIsFound(l, row, at, agentId, capability, now);
  }

  /** What is found once the task's first entries are in. */
  ghost function FoundWith(l: Ledger, hostId: nat, agent: nat, taskId: nat, expiresAt: Option<int>, specs: seq<Spec>,
      agentId: nat, capability: string, now: int): Option<NewGrant> {
    var last := LastSpec(specs, capability);
    if agent != agentId || last.None? then Found(l, agentId, capability, now)
    else if expiresAt.Some? && expiresAt.value <= now then None
    else Some(ForTask(hostId, agent, taskId, expiresAt, last.value))
  }

  lemma LastRow(l: Ledger, rows: seq<NewGrant>, row: NewGrant, at: int)
    ensures UpsertAll(l, rows + [row], at).0 == Upsert(UpsertAll(l, rows, at).0, row, at)
  {
    assert (rows + [row])[..|rows|] == rows;
  }

  lemma {:induction false} TaskRowsAreFound(l: Ledger, hostId: nat, agent: nat, taskId: nat, expiresAt: Option<int>,
      specs: seq<Spec>, at: int, agentId: nat, capability: string, now: int)
    requires Sound(l) && IsOpen(l, taskId, agent, expiresAt)
    ensures var after := UpsertAll(l, TaskRows(hostId, agent, taskId, expiresAt, specs), at).0;
            && Sound(after) && after.tasks == l.tasks
            && Found(after, agentId, capability, now) ==
               FoundWith(l, hostId, agent, taskId, expiresAt, specs, agentId, capability, now)
  {
    if specs != [] {
      var init, last := specs[..|specs| - 1], specs[|specs| - 1];
      var rows := TaskRows(hostId, agent, taskId, expiresAt, init);
      var row := ForTask(hostId, agent, taskId, expiresAt, last);
      assert TaskRows(hostId, agent, taskId, expiresAt, specs) == rows + [row];
      TaskRowsAreFound(l, hostId, agent, taskId, expiresAt, init, at, agentId, capability, now);
      LastRow(l, rows, row, at);
      OneTaskRow(UpsertAll(l, rows, at).0, row, at, agentId, capability, now);
    }
  }

  lemma CompletionIsFelt(l: Ledger, hostId: nat, taskId: nat, at: int, agentId: nat, capability: string, now: int)
    requires Sound(l) && taskId < |l.tasks| && l.tasks[taskId].hostId == hostId
    ensures var before := Found(l, agentId, capability, now);
            var r := CompleteTask(l, hostId, taskId, at);
            && r.Ok?
            && Found(r.value, agentId, capability, now) ==
               if before.Some? && before.value.taskId == Some(taskId) then None else before
  {
    var after := CompleteTask(l, hostId, taskId, at).value;
    CompleteTaskIsSound(l, hostId, taskId, at);
    FindActiveFinds(l.grants, agentId, capability, now);
    FindActiveFinds(after.grants, agentId, capability, now);
    var found := FindActive(l.grants, agentId, capability, now);
    var left := FindActive(after.grants, agentId, capability, now);
    if left.Some? {
      var g := RevokedRow(l.grants, taskId, left.value);
    }
    if found.Some? && found.value.row.taskId != Some(taskId) {
      assert found.value in after.grants;
    }
  }

  ghost predicate Monotone(events: seq<Event>) {
    forall i, j :: 0 <= i < j < |events| ==> events[i].now <= events[j].now
  }

  /** The ledger with the task that the event creates, before its grants. */
  function Begun(l: Ledger, e: Event): Ledger
    requires Creates(e)
  {
    l.(tasks := l.tasks + [Task(e.op.agentId, e.op.hostId, Running, EndOf(e), None)])
  }

  lemma TaskIsBegun(l: Ledger, e: Event)
    requires Creates(e)
    ensures IsOpen(Begun(l, e), |l.tasks|, e.op.agentId, EndOf(e)) && (Sound(l) ==> Sound(Begun(l, e)))
    ensures var rows := TaskRows(e.op.hostId, e.op.agentId, |l.tasks|, EndOf(e), e.op.specs);
            Step(l, e) == UpsertAll(Begun(l, e), rows, e.now).0
  {
  }

  lemma TaskIsFelt(l: Ledger, e: Event, agentId: nat, capability: string, now: int)
    requires Sound(l) && Creates(e)
    ensures Found(Step(l, e), agentId, capability, now) ==
            FoundWith(Begun(l, e), e.op.hostId, e.op.agentId, |l.tasks|, EndOf(e), e.op.specs, agentId, capability, now)
    ensures Found(Begun(l, e), agentId, capability, now) == Found(l, agentId, capability, now)
  {
    TaskIsBegun(l, e);
    TaskRowsAreFound(Begun(l, e), e.op.hostId, e.op.agentId, |l.tasks|, EndOf(e), e.op.specs, e.now, agentId,
                     capability, now);
  }

  /** One event: a gift is what is found; a completion ends what came with its task; nothing else is felt. */
  lemma StepIsFelt(l: Ledger, e: Event, agentId: nat, capability: string, now: int)
    requires Sound(l) && e.now <= now
    ensures var before, gift := Found(l, agentId, capability, now), Gives(e, agentId, capability);
            Found(Step(l, e), agentId, capability, now) ==
            if gift.Some? then
              var row := GivenRow(e, agentId, gift.value, |l.tasks|);
              if row.expiresAt.Some? && row.expiresAt.value <= now then None else Some(row)
            else if before.Some? && before.value.taskId.Some? && IsCompletedBy(l, e, before.value.taskId.value)
            then None
            else before
  {
    match e.op
    case Approval(hostId, to, owner, connection, spec) =>
      ApprovalTakes(l, hostId, to, owner, connection, spec, e.now);
      if Approve(l, hostId, to, owner, connection, spec, e.now).Ok? {
        UpsertIsFound(l, Mapping(hostId, to, spec), e.now, agentId, capability, now);
      }
    case Requests(to, _, requests) =>
      RequestsAddNothing(l, to, requests, e.now);
    case TaskCreation(hostId, to, owner, ttlSeconds, specs) =>
      if Creates(e) {
        TaskIsFelt(l, e, agentId, capability, now);
      }
    case Completion(hostId, taskId) =>
      if taskId < |l.tasks| && l.tasks[taskId].hostId == hostId {
        CompletionIsFelt(l, hostId, taskId, e.now, agentId, capability, now);
      }
  }

  predicate IsCompletedBy(l: Ledger, e: Event, task: nat) {
    task < |l.tasks| && e.op == Completion(l.tasks[task].hostId, task)
  }

  /** The task's row and the event that created it name the same host. */
  lemma CompletionIsTheOwners(events: seq<Event>, n: nat, e: Event, task: nat)
    requires n <= |events| && task < Created(events, n)
    ensures IsCompletedBy(After(events, n), e, task) <==>
            e.op == Completion(events[Creator(events, n, task)].op.hostId, task)
  {
    TasksTellHistory(events, n);
    assert TaskTellsHistory(After(events, n).tasks, events, n, task);
  }

  lemma AuthorityOneMore(events: seq<Event>, n: nat, agentId: nat, capability: string, now: int)
    requires 0 < n <= |events| && events[n - 1].now <= now
    requires Found(After(events, n - 1), agentId, capability, now) == Held(events, n - 1, agentId, capability, now)
    ensures Found(After(events, n), agentId, capability, now) == Held(events, n, agentId, capability, now)
  {
    var l, e, before := After(events, n - 1), events[n - 1], Held(events, n - 1, agentId, capability, now);
    SoundAlong(events, n - 1);
    TasksTellHistory(events, n - 1);
    if before.Some? && before.value.taskId.Some? && before.value.taskId.value < Created(events, n - 1) {
      CompletionIsTheOwners(events, n - 1, e, before.value.taskId.value);
    }
    StepIsFelt(l, e, agentId, capability, now);
    HistoryIsFelt(events, n, agentId, capability, now);
  }

  /**
   * Over every run, at every instant from the last event on, the lookup finds exactly what the history gives: the
   * last thing the agent's host approved or assigned, with its constraints, connection, operation and expiry.
   */
  lemma {:induction false} AuthorityTellsHistory(events: seq<Event>, n: nat, agentId: nat, capability: string, now: int)
    requires n <= |events| && Monotone(events) && (n > 0 ==> events[n - 1].now <= now)
    ensures Found(After(events, n), agentId, capability, now) == Held(events, n, agentId, capability, now)
  {
    if n > 0 {
      AuthorityTellsHistory(events, n - 1, agentId, capability, now);
      AuthorityOneMore(events, n, agentId, capability, now);
    }
  }

  lemma HistoryIsFelt(events: seq<Event>, n: nat, agentId: nat, capability: string, now: int)
    requires 0 < n <= |events|
    ensures var before, e := Held(events, n - 1, agentId, capability, now), events[n - 1];
            var gift := Gives(e, agentId, capability);
            Held(events, n, agentId, capability, now) ==
            if gift.Some? then
              var row := GivenRow(e, agentId, gift.value, Created(events, n - 1));
              if row.expiresAt.Some? && row.expiresAt.value <= now then None else Some(row)
            else if before.Some? && before.value.taskId.Some? && before.value.taskId.value < Created(events, n - 1)
                    && e.op == Completion(events[Creator(events, n - 1, before.value.taskId.value)].op.hostId,
                                          before.value.taskId.value)
            then None
            else before
  {
    var last := LastGift(events, n, agentId, capability);
    if last.Some? && events[last.value].op.TaskCreation? {
      CreatorIs(events, last.value, n);
      if last.value < n - 1 {
        CreatorIs(events, last.value, n - 1);
      }
    }
  }

  // ---------------------------------------------------------------- tasks against the lookup

  /** In every reachable state and at every instant a task's grant is found iff the listing shows the task active. */
  lemma FoundExactlyWhileShownActive(events: seq<Event>, n: nat, g: Grant, now: int)
    requires n <= |events| && g in After(events, n).grants && g.row.taskId.Some?
    ensures g.row.taskId.value < |After(events, n).tasks|
    ensures FindActive(After(events, n).grants, g.row.agentId, g.row.capability, now) == Some(g) <==>
            Display(After(events, n).tasks[g.row.taskId.value], now) == ShownActive
  {
    SoundAlong(events, n);
    assert BoundToTask(g, After(events, n).tasks);
    FindActiveFinds(After(events, n).grants, g.row.agentId, g.row.capability, now);
  }

  /** The capabilities introspection reports for an agent: those of its active grants, whatever their expiry. */
  function Introspected(grants: set<Grant>, agentId: nat): set<string> {
    set g | g in grants && g.row.agentId == agentId && g.row.status == Active :: g.row.capability
  }

  /** An active grant of the pair whose task the listing shows as expired. */
  ghost predicate OutlivedTask(l: Ledger, g: Grant, agentId: nat, capability: string, now: int) {
    && g in l.grants && IsFor(g, agentId, capability) && g.row.status == Active
    && g.row.taskId.Some? && g.row.taskId.value < |l.tasks|
    && Display(l.tasks[g.row.taskId.value], now) == ShownExpired
  }

  /**
   * In every reachable state introspection reports every capability the lookup grants, and one more exactly when
   * it belongs to a task the listing shows as expired.
   */
  lemma IntrospectedExactly(events: seq<Event>, n: nat, agentId: nat, capability: string, now: int)
    requires n <= |events|
    ensures var l := After(events, n);
            capability in Introspected(l.grants, agentId) <==>
              || FindActive(l.grants, agentId, capability, now).Some?
              || exists g :: OutlivedTask(l, g, agentId, capability, now)
    ensures var l := After(events, n);
            FindActive(l.grants, agentId, capability, now).Some? ==>
              !exists g :: OutlivedTask(l, g, agentId, capability, now)
  {
    var l := After(events, n);
    SoundAlong(events, n);
    FindActiveFinds(l.grants, agentId, capability, now);
    forall g | g in l.grants && IsFor(g, agentId, capability) && g.row.status == Active
      ensures Live(g, now) != OutlivedTask(l, g, agentId, capability, now)
    {
      assert BoundToTask(g, l.tasks);
    }
  }

  lemma {:induction false} UpsertAllKeepsTasks(l: Ledger, rows: seq<NewGrant>, now: int)
    ensures UpsertAll(l, rows, now).0.tasks == l.tasks
  {
    if rows != [] {
      UpsertAllKeepsTasks(l, rows[..|rows| - 1], now);
    }
  }

  lemma {:induction false} UpsertAllAnswers(l: Ledger, rows: seq<NewGrant>, now: int)
    ensures var made := UpsertAll(l, rows, now).1;
            |made| == |rows| && forall i :: 0 <= i < |rows| ==> made[i].row == rows[i]
  {
    if rows != [] {
      UpsertAllAnswers(l, rows[..|rows| - 1], now);
    }
  }

  lemma {:induction false} RequestAllKeepsTasks(l: Ledger, agentId: nat, requests: seq<CapabilityRequest>, now: int)
    ensures RequestAll(l, agentId, requests, now).0.tasks == l.tasks
  {
    if requests != [] {
      RequestAllKeepsTasks(l, agentId, requests[..|requests| - 1], now);
    }
  }

  /** Tasks stay, keep their expiry, and never leave `completed`. */
  ghost predicate TasksAdvance(before: seq<Task>, after: seq<Task>) {
    |before| <= |after| &&
    forall t :: 0 <= t < |before| ==>
      && after[t].expiresAt == before[t].expiresAt
      && (before[t].status == Completed ==> after[t].status == Completed)
  }

  lemma StepAdvancesTasks(l: Ledger, e: Event)
    ensures TasksAdvance(l.tasks, Step(l, e).tasks)
  {
    match e.op
    case Approval(_, _, _, _, _) =>
    case Requests(agentId, _, requests) => RequestAllKeepsTasks(l, agentId, requests, e.now);
    case TaskCreation(hostId, agentId, owner, ttlSeconds, specs) =>
      var expiresAt := TaskExpiry(ttlSeconds, e.now);
      var task := Task(agentId, hostId, Running, expiresAt, None);
      UpsertAllKeepsTasks(l.(tasks := l.tasks + [task]), TaskRows(hostId, agentId, |l.tasks|, expiresAt, specs), e.now);
    case Completion(_, _) =>
  }

  lemma {:induction false} TasksAdvanceAlong(events: seq<Event>, m: nat, n: nat)
    requires m <= n <= |events|
    ensures TasksAdvance(After(events, m).tasks, After(events, n).tasks)
  {
    if m < n {
      TasksAdvanceAlong(events, m, n - 1);
      StepAdvancesTasks(After(events, n - 1), events[n - 1]);
    }
  }

  /**
   * Zero standing access: once the listing would show a task as completed or expired, no lookup of any pair
   * returns a grant of that task, then or at any later time of the run.
   */
  lemma EndedTaskIsNeverFound(events: seq<Event>, m: nat, n: nat, task: nat, shownAt: int, now: int, agentId: nat,
      capability: string)
    requires m <= n <= |events| && task < |After(events, m).tasks| && shownAt <= now
    requires Display(After(events, m).tasks[task], shownAt) != ShownActive
    ensures var found := FindActive(After(events, n).grants, agentId, capability, now);
            found.Some? ==> found.value.row.taskId != Some(task)
  {
    SoundAlong(events, n);
    TasksAdvanceAlong(events, m, n);
    FindActiveFinds(After(events, n).grants, agentId, capability, now);
    var found := FindActive(After(events, n).grants, agentId, capability, now);
    if found.Some? && found.value.row.taskId == Some(task) {
      FoundExactlyWhileShownActive(events, n, found.value, now);
    }
  }
}
