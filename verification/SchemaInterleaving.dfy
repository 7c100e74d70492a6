/**
 * The schema router at the granularity of its awaits: looking into the cache, reading the registry row, the
 * answer of the origin (with which the cache is filled), and keeping the schema with the row are separate steps,
 * and so are the two of a registration. Any number of requests run side by side.
 *
 * An entry carries the registration its schema was fetched for. The code does not store that; it is here to say
 * whether a schema is out of date.
 */
module SchemaInterleaving {
  import opened Common
  import SchemaRouter

  type Config = SchemaRouter.Config

  type Fetch = SchemaRouter.Fetch

  /** What a registration binds a tool's name to. */
  datatype Binding = Binding(adapterType: string, config: string)

  datatype Entry = Entry(schema: string, expiresAt: int, from: Binding)

  datatype Tool = Tool(binding: Binding, stored: Option<Binding>)

  datatype Request =
    | LookUp(name: string)
    | ReadRow(name: string)
    | Fetching(name: string, from: Binding)
    | Keeping(name: string, schema: string, from: Binding)
    | Served(name: string, schema: string, from: Binding)
    | Refused
    | Upserting(name: string, to: Binding)
    | Dropping(name: string)
    | Registered

  datatype System = System(cache: map<string, Entry>, tools: map<string, Tool>, requests: seq<Request>)

  /** `now` is the clock reading of the step. */
  datatype Action = Arrive(request: Request) | Call(index: nat, now: int) | Flush

  predicate Starting(r: Request) {
    r.LookUp? || r.Upserting?
  }

  function Origin(c: Config, fetch: Fetch, b: Binding, now: int): Option<string> {
    if b.adapterType !in c.adapters then None
    else
      match fetch(b.adapterType, b.config, now)
      case Ok(schema) => Some(schema)
      case Err(_) => None
  }

  // ---------------------------------------------------------------- one step

  function CacheAfter(c: Config, fetch: Fetch, y: System, r: Request, now: int): map<string, Entry> {
    match r
    case LookUp(name) =>
      if name in y.cache && y.cache[name].expiresAt <= now then y.cache - {name} else y.cache
    case Fetching(name, from) =>
      var schema := Origin(c, fetch, from, now);
      if schema.Some? && c.ttl > 0 then y.cache[name := Entry(schema.value, now + c.ttl * MILLIS, from)] else y.cache
    case Dropping(name) => y.cache - {name}
    case _ => y.cache
  }

  function ToolsAfter(y: System, r: Request): map<string, Tool> {
    match r
    case Keeping(name, _, from) =>
      if name in y.tools then y.tools[name := y.tools[name].(stored := Some(from))] else y.tools
    case Upserting(name, to) => y.tools[name := Tool(to, None)]
    case _ => y.tools
  }

  function RequestAfter(c: Config, fetch: Fetch, y: System, r: Request, now: int): Request {
    match r
    case LookUp(name) =>
      if name in y.cache && y.cache[name].expiresAt > now then Served(name, y.cache[name].schema, y.cache[name].from)
      else ReadRow(name)
    case ReadRow(name) => if name in y.tools then Fetching(name, y.tools[name].binding) else Refused
    case Fetching(name, from) =>
      var schema := Origin(c, fetch, from, now);
      if schema.Some? then Keeping(name, schema.value, from) else Refused
    case Keeping(name, schema, from) => Served(name, schema, from)
    case Upserting(name, _) => Dropping(name)
    case Dropping(_) => Registered
    case _ => r
  }

  function Next(c: Config, fetch: Fetch, y: System, action: Action): System {
    match action
    case Arrive(r) => if Starting(r) then y.(requests := y.requests + [r]) else y
    case Call(index, now) =>
      if index >= |y.requests| then y
      else
        var r := y.requests[index];
        System(CacheAfter(c, fetch, y, r, now), ToolsAfter(y, r),
               y.requests[index := RequestAfter(c, fetch, y, r, now)])
    case Flush => y.(cache := map[])
  }

  function After(c: Config, fetch: Fetch, start: System, schedule: seq<Action>, n: nat): System
    requires n <= |schedule|
  {
    if n == 0 then start else Next(c, fetch, After(c, fetch, start, schedule, n - 1), schedule[n - 1])
  }

  // ---------------------------------------------------------------- after a registration

  /** A registration of the tool has just ended, and no other is about to write its row. */
  ghost predicate JustRegistered(y: System, name: string, b: Binding) {
    && name in y.tools && y.tools[name].binding == b && name !in y.cache
    && forall j :: 0 <= j < |y.requests| ==> !(y.requests[j].Upserting? && y.requests[j].name == name)
  }

  /** The schedule brings no further registration of the tool. */
  ghost predicate NotAgain(schedule: seq<Action>, name: string) {
    forall action :: action in schedule && action.Arrive? && action.request.Upserting? ==> action.request.name != name
  }

  /** The request waits for the origin of an earlier registration, and that origin may still answer. */
  ghost predicate HoldsOld(c: Config, fetch: Fetch, r: Request, name: string, b: Binding) {
    r.Fetching? && r.name == name && r.from != b && exists now :: Origin(c, fetch, r.from, now).Some?
  }

  /** Whatever the request holds for the tool is of the registration `b`. */
  predicate HoldsOnly(r: Request, name: string, b: Binding) {
    (r.Fetching? || r.Keeping? || r.Served?) && r.name == name ==> r.from == b
  }

  /** Requests from the `first` on hold and serve nothing but `b`. */
  ghost predicate LaterServe(y: System, first: nat, name: string, b: Binding) {
    forall j :: first <= j < |y.requests| ==> HoldsOnly(y.requests[j], name, b)
  }

  /** What stays true as long as no old answer can come in. */
  ghost predicate StaysCurrent(c: Config, fetch: Fetch, y: System, first: nat, name: string, b: Binding) {
    && first <= |y.requests| && name in y.tools && y.tools[name].binding == b
    && (name in y.cache ==> y.cache[name].from == b)
    && LaterServe(y, first, name, b)
    && (forall j :: 0 <= j < |y.requests| ==>
          && !(y.requests[j].Upserting? && y.requests[j].name == name)
          && (c.ttl > 0 ==> !HoldsOld(c, fetch, y.requests[j], name, b)))
  }

  lemma CallStaysCurrent(c: Config, fetch: Fetch, y: System, r: Request, now: int, name: string, b: Binding)
    requires name in y.tools && y.tools[name].binding == b && (name in y.cache ==> y.cache[name].from == b)
    requires !(r.Upserting? && r.name == name) && (c.ttl > 0 ==> !HoldsOld(c, fetch, r, name, b))
    ensures var cache, tools := CacheAfter(c, fetch, y, r, now), ToolsAfter(y, r);
            var next := RequestAfter(c, fetch, y, r, now);
            && name in tools && tools[name].binding == b && (name in cache ==> cache[name].from == b)
            && (HoldsOnly(r, name, b) ==> HoldsOnly(next, name, b))
            && !(next.Upserting? && next.name == name) && !HoldsOld(c, fetch, next, name, b)
  {
    if r.Fetching? && r.name == name && r.from != b && c.ttl > 0 {
      assert Origin(c, fetch, r.from, now).None?;
    }
  }

  lemma NextStaysCurrent(c: Config, fetch: Fetch, y: System, action: Action, first: nat, name: string, b: Binding)
    requires StaysCurrent(c, fetch, y, first, name, b)
    requires action.Arrive? && action.request.Upserting? ==> action.request.name != name
    ensures StaysCurrent(c, fetch, Next(c, fetch, y, action), first, name, b)
  {
    if action.Call? && action.index < |y.requests| {
      CallStaysCurrent(c, fetch, y, y.requests[action.index], action.now, name, b);
    }
  }

  lemma {:induction false} CurrentAlong(c: Config, fetch: Fetch, y: System, schedule: seq<Action>, n: nat, first: nat,
      name: string, b: Binding)
    requires n <= |schedule| && StaysCurrent(c, fetch, y, first, name, b) && NotAgain(schedule, name)
    ensures StaysCurrent(c, fetch, After(c, fetch, y, schedule, n), first, name, b)
  {
    if n > 0 {
      CurrentAlong(c, fetch, y, schedule, n - 1, first, name, b);
      NextStaysCurrent(c, fetch, After(c, fetch, y, schedule, n - 1), schedule[n - 1], first, name, b);
    }
  }

  /** An old answer comes in, and the next query is served from the cache. */
  function OldAnswer(y: System, j: nat, name: string, now: int): seq<Action> {
    [Call(j, now), Arrive(LookUp(name)), Call(|y.requests|, now)]
  }

  lemma OldAnswerIsServed(c: Config, fetch: Fetch, y: System, j: nat, name: string, b: Binding, now: int)
    requires j < |y.requests| && HoldsOld(c, fetch, y.requests[j], name, b) && c.ttl > 0
    requires Origin(c, fetch, y.requests[j].from, now).Some?
    ensures NotAgain(OldAnswer(y, j, name, now), name)
    ensures !LaterServe(After(c, fetch, y, OldAnswer(y, j, name, now), 3), |y.requests|, name, b)
  {
    var schedule, from := OldAnswer(y, j, name, now), y.requests[j].from;
    assert After(c, fetch, y, schedule, 0) == y;
    var filled := After(c, fetch, y, schedule, 1);
    assert name in filled.cache && filled.cache[name].from == from && filled.cache[name].expiresAt > now;
    var asked := After(c, fetch, y, schedule, 2);
    assert asked.cache == filled.cache && asked.requests == filled.requests + [LookUp(name)];
    var served := After(c, fetch, y, schedule, 3);
    assert served.requests[|y.requests|].Served? && served.requests[|y.requests|].from == from;
  }

  /**
   * From the end of a registration until the next one of that tool: every request that arrives later is served
   * only schemas of this registration, under every schedule, iff caching is off or no request still waits for an
   * origin the tool was bound to before that may answer.
   */
  lemma ServedIsCurrentExactlyWhen(c: Config, fetch: Fetch, y: System, name: string, b: Binding)
    requires JustRegistered(y, name, b)
    ensures (forall schedule: seq<Action>, n: nat :: NotAgain(schedule, name) && n <= |schedule| ==>
               LaterServe(After(c, fetch, y, schedule, n), |y.requests|, name, b))
            <==> (c.ttl <= 0 || forall j :: 0 <= j < |y.requests| ==> !HoldsOld(c, fetch, y.requests[j], name, b))
  {
    if j :| 0 <= j < |y.requests| && c.ttl > 0 && HoldsOld(c, fetch, y.requests[j], name, b) {
      var now :| Origin(c, fetch, y.requests[j].from, now).Some?;
      OldAnswerIsServed(c, fetch, y, j, name, b, now);
      assert |OldAnswer(y, j, name, now)| == 3;
    } else {
      forall schedule: seq<Action>, n: nat | NotAgain(schedule, name) && n <= |schedule|
        ensures LaterServe(After(c, fetch, y, schedule, n), |y.requests|, name, b)
      {
        CurrentAlong(c, fetch, y, schedule, n, |y.requests|, name, b);
      }
    }
  }

  // ---------------------------------------------------------------- the schema kept with the row

  /** The row is bound to `b` and keeps no schema of another registration. */
  ghost predicate KeepsOnly(y: System, name: string, b: Binding) {
    && name in y.tools && y.tools[name].binding == b
    && (y.tools[name].stored.Some? ==> y.tools[name].stored.value == b)
  }

  /** The request will write an old schema to the row, or may still come to it. */
  ghost predicate MayKeepOld(c: Config, fetch: Fetch, r: Request, name: string, b: Binding) {
    HoldsOld(c, fetch, r, name, b) || (r.Keeping? && r.name == name && r.from != b)
  }

  ghost predicate RowStaysCurrent(c: Config, fetch: Fetch, y: System, name: string, b: Binding) {
    && KeepsOnly(y, name, b)
    && forall j :: 0 <= j < |y.requests| ==>
         && !(y.requests[j].Upserting? && y.requests[j].name == name)
         && !MayKeepOld(c, fetch, y.requests[j], name, b)
  }

  lemma RowNext(c: Config, fetch: Fetch, y: System, action: Action, name: string, b: Binding)
    requires RowStaysCurrent(c, fetch, y, name, b)
    requires action.Arrive? && action.request.Upserting? ==> action.request.name != name
    ensures RowStaysCurrent(c, fetch, Next(c, fetch, y, action), name, b)
  {
    if action.Call? && action.index < |y.requests| {
      var r := y.requests[action.index];
      assert r.Fetching? && r.name == name && r.from != b ==> Origin(c, fetch, r.from, action.now).None?;
    }
  }

  lemma {:induction false} RowAlong(c: Config, fetch: Fetch, y: System, schedule: seq<Action>, n: nat, name: string,
      b: Binding)
    requires n <= |schedule| && RowStaysCurrent(c, fetch, y, name, b) && NotAgain(schedule, name)
    ensures RowStaysCurrent(c, fetch, After(c, fetch, y, schedule, n), name, b)
  {
    if n > 0 {
      RowAlong(c, fetch, y, schedule, n - 1, name, b);
      RowNext(c, fetch, After(c, fetch, y, schedule, n - 1), schedule[n - 1], name, b);
    }
  }

  lemma OldSchemaIsKept(c: Config, fetch: Fetch, y: System, j: nat, name: string, b: Binding)
    returns (schedule: seq<Action>)
    requires j < |y.requests| && MayKeepOld(c, fetch, y.requests[j], name, b) && name in y.tools
    ensures NotAgain(schedule, name) && !KeepsOnly(After(c, fetch, y, schedule, |schedule|), name, b)
  {
    var from := y.requests[j].from;
    if y.requests[j].Keeping? {
      schedule := [Call(j, 0)];
      assert After(c, fetch, y, schedule, 0) == y;
      assert After(c, fetch, y, schedule, 1).tools == y.tools[name := y.tools[name].(stored := Some(from))];
    } else {
      var now :| Origin(c, fetch, from, now).Some?;
      schedule := [Call(j, now), Call(j, now)];
      assert After(c, fetch, y, schedule, 0) == y;
      var filled := After(c, fetch, y, schedule, 1);
      assert filled.tools == y.tools && filled.requests[j] == Keeping(name, Origin(c, fetch, from, now).value, from);
      assert After(c, fetch, y, schedule, 2).tools == y.tools[name := y.tools[name].(stored := Some(from))];
    }
  }

  /**
   * Until the next registration of the tool its row keeps only schemas of this one, under every schedule, iff no
   * request holds an old schema on its way to the row or still waits for an old origin that may answer.
   */
  lemma KeptIsCurrentExactlyWhen(c: Config, fetch: Fetch, y: System, name: string, b: Binding)
    requires JustRegistered(y, name, b) && KeepsOnly(y, name, b)
    ensures (forall schedule: seq<Action>, n: nat :: NotAgain(schedule, name) && n <= |schedule| ==>
               KeepsOnly(After(c, fetch, y, schedule, n), name, b))
            <==> forall j :: 0 <= j < |y.requests| ==> !MayKeepOld(c, fetch, y.requests[j], name, b)
  {
    if j :| 0 <= j < |y.requests| && MayKeepOld(c, fetch, y.requests[j], name, b) {
      var schedule := OldSchemaIsKept(c, fetch, y, j, name, b);
      assert !KeepsOnly(After(c, fetch, y, schedule, |schedule|), name, b);
    } else {
      forall schedule: seq<Action>, n: nat | NotAgain(schedule, name) && n <= |schedule|
        ensures KeepsOnly(After(c, fetch, y, schedule, n), name, b)
      {
        RowAlong(c, fetch, y, schedule, n, name, b);
      }
    }
  }
}
