/**
 * The tool-schema router: an access check, a per-tool TTL cache, and a registry whose rows also keep the last
 * schema fetched. `fetch` stands for fetching from the tool's origin and normalizing; it may fail, and its
 * outcome may depend on when it is asked.
 */
module SchemaRouter {
  import opened Common

  const ADAPTER_TYPES: set<string> := {"mcp", "openapi", "cli"}

  datatype FetchError = FetchFailed

  type Fetch = (string, string, int) -> Result<string, FetchError>

  datatype Tool = Tool(adapterType: string, config: string, stored: Option<string>, storedAt: Option<int>)

  datatype Entry = Entry(schema: string, expiresAt: int)

  datatype State = State(cache: map<string, Entry>, tools: map<string, Tool>)

  datatype Error = InvalidRequest | NotGranted | NotRegistered | NoAdapter | OriginFailed

  datatype Served = Served(schema: string, cached: bool)

  /** The time to live in seconds, and the adapter types for which an adapter is installed. */
  datatype Config = Config(ttl: int, adapters: set<string>)

  // ---------------------------------------------------------------- what the operations do

  function Fetched(c: Config, fetch: Fetch, tools: map<string, Tool>, name: string, now: int): Result<string, Error> {
    if name !in tools then Err(NotRegistered)
    else if tools[name].adapterType !in c.adapters then Err(NoAdapter)
    else
      match fetch(tools[name].adapterType, tools[name].config, now)
      case Ok(schema) => Ok(schema)
      case Err(_) => Err(OriginFailed)
  }

  predicate Hit(s: State, name: string, now: int) {
    name in s.cache && s.cache[name].expiresAt > now
  }

  function Get(c: Config, fetch: Fetch, s: State, granted: bool, name: string, now: int)
    : (State, Result<Served, Error>)
  {
    if !granted then (s, Err(NotGranted))
    else if Hit(s, name, now) then (s, Ok(Served(s.cache[name].schema, true)))
    else
      var emptied := s.(cache := s.cache - {name});
      match Fetched(c, fetch, s.tools, name, now)
      case Err(e) => (emptied, Err(e))
      case Ok(schema) =>
        var cache := if c.ttl > 0 then emptied.cache[name := Entry(schema, now + c.ttl * MILLIS)] else emptied.cache;
        var tool := s.tools[name].(stored := Some(schema), storedAt := Some(now));
        (State(cache, s.tools[name := tool]), Ok(Served(schema, false)))
  }

  function Register(s: State, name: string, adapterType: string, config: string): Result<State, Error> {
    if name == "" || adapterType !in ADAPTER_TYPES then Err(InvalidRequest)
    else Ok(State(s.cache - {name}, s.tools[name := Tool(adapterType, config, None, None)]))
  }

  class TokenRouter {
    const config: Config
    var cache: map<string, Entry>
    var tools: map<string, Tool>

    ghost function Contents(): State
      reads this
    {
      State(cache, tools)
    }

    constructor (config: Config)
      ensures this.config == config && Contents() == State(map[], map[])
    {
      this.config := config;
      cache, tools := map[], map[];
    }

    method Lookup(name: string, now: int) returns (schema: Option<string>)
      modifies this`cache
      ensures schema == if Hit(old(Contents()), name, now) then Some(old(cache)[name].schema) else None
      ensures cache == if Hit(old(Contents()), name, now) then old(cache) else old(cache) - {name}
    {
      if name !in cache {
        assert cache - {name} == cache;
        return None;
      }
      var entry := cache[name];
      if entry.expiresAt <= now {
        cache := cache - {name};
        return None;
      }
      return Some(entry.schema);
    }

    method Remember(name: string, schema: string, now: int)
      modifies this`cache
      ensures cache == if config.ttl > 0
                       then old(cache)[name := Entry(schema, now + config.ttl * MILLIS)]
                       else old(cache)
    {
      if config.ttl <= 0 {
        return;
      }
      cache := cache[name := Entry(schema, now + config.ttl * MILLIS)];
    }

    method GetToolSchema(granted: bool, name: string, fetch: Fetch, now: int) returns (r: Result<Served, Error>)
      modifies this
      ensures (Contents(), r) == Get(config, fetch, old(Contents()), granted, name, now)
    {
      if !granted {
        return Err(NotGranted);
      }
      var hit := Lookup(name, now);
      if hit.Some? {
        return Ok(Served(hit.value, true));
      }
      if name !in tools {
        return Err(NotRegistered);
      }
      if tools[name].adapterType !in config.adapters {
        return Err(NoAdapter);
      }
      var raw := fetch(tools[name].adapterType, tools[name].config, now);
      if raw.Err? {
        return Err(OriginFailed);
      }
      Remember(name, raw.value, now);
      tools := tools[name := tools[name].(stored := Some(raw.value), storedAt := Some(now))];
      return Ok(Served(raw.value, false));
    }

    /** Registering replaces the row, clears its stored schema, and drops the cached one. */
    method RegisterTool(name: string, adapterType: string, adapterConfig: string) returns (r: Result<(), Error>)
      modifies this
      ensures match Register(old(Contents()), name, adapterType, adapterConfig)
              case Ok(after) => Contents() == after && r == Ok(())
              case Err(e) => Contents() == old(Contents()) && r == Err(e)
      ensures r.Ok? <==> name != "" && adapterType in {"mcp", "openapi", "cli"}
    {
      if name == "" {
        return Err(InvalidRequest);
      }
      if adapterType !in ADAPTER_TYPES {
        return Err(InvalidRequest);
      }
      tools := tools[name := Tool(adapterType, adapterConfig, None, None)];
      cache := cache - {name};
      return Ok(());
    }

    method Flush()
      modifies this`cache
      ensures cache == map[]
    {
      cache := map[];
    }
  }

  // ---------------------------------------------------------------- runs

  datatype Op =
    | Registration(name: string, adapterType: string, config: string)
    | FlushAll
    | Query(granted: bool, name: string)

  datatype Event = Event(op: Op, now: int)

  function Step(c: Config, fetch: Fetch, s: State, e: Event): State {
    match e.op
    case Registration(name, adapterType, config) =>
      var r := Register(s, name, adapterType, config); if r.Ok? then r.value else s
    case FlushAll => s.(cache := map[])
    case Query(granted, name) => Get(c, fetch, s, granted, name, e.now).0
  }

  function After(c: Config, fetch: Fetch, events: seq<Event>, n: nat): State
    requires n <= |events|
  {
    if n == 0 then State(map[], map[]) else Step(c, fetch, After(c, fetch, events, n - 1), events[n - 1])
  }

  ghost predicate Monotone(events: seq<Event>) {
    forall i, j :: 0 <= i < j < |events| ==> events[i].now <= events[j].now
  }

  function Answer(c: Config, fetch: Fetch, events: seq<Event>, k: nat): Result<Served, Error>
    requires k < |events| && events[k].op.Query?
  {
    Get(c, fetch, After(c, fetch, events, k), events[k].op.granted, events[k].op.name, events[k].now).1
  }

  // ---------------------------------------------------------------- the registry tells the history

  /** A registration of the tool that is accepted: it has a name and one of the three adapter types. */
  predicate Registers(e: Event, name: string) {
    && e.op.Registration? && e.op.name == name && name != ""
    && (e.op.adapterType == "mcp" || e.op.adapterType == "openapi" || e.op.adapterType == "cli")
  }

  /** The last accepted registration of the tool among the first `n` events. */
  function LastRegistration(events: seq<Event>, n: nat, name: string): (last: Option<nat>)
    requires n <= |events|
    ensures last.Some? ==> last.value < n && Registers(events[last.value], name)
    ensures forall i :: (if last.Some? then last.value + 1 else 0) <= i < n ==> !Registers(events[i], name)
  {
    if n == 0 then None
    else if Registers(events[n - 1], name) then Some(n - 1)
    else LastRegistration(events, n - 1, name)
  }

  /** What was registered last is what the row says. */
  ghost predicate TellsHistory(tools: map<string, Tool>, events: seq<Event>, n: nat, name: string)
    requires n <= |events|
  {
    var last := LastRegistration(events, n, name);
    && (name in tools <==> last.Some?)
    && (last.Some? ==>
          && tools[name].adapterType == events[last.value].op.adapterType
          && tools[name].config == events[last.value].op.config)
  }

  /** A tool is registered iff it once was, and its row carries the adapter type and config of the last time. */
  lemma {:induction false} RegistryTellsHistory(c: Config, fetch: Fetch, events: seq<Event>, n: nat, name: string)
    requires n <= |events|
    ensures TellsHistory(After(c, fetch, events, n).tools, events, n, name)
  {
    if n > 0 {
      RegistryTellsHistory(c, fetch, events, n - 1, name);
      var e, s := events[n - 1], After(c, fetch, events, n - 1);
      if e.op.Query? {
        QueryKeepsRegistry(c, fetch, s, e.op.granted, e.op.name, e.now);
      } else if e.op.Registration? {
        RegistrationReplaces(s, e, name);
      }
    }
  }

  lemma RegistrationReplaces(s: State, e: Event, name: string)
    requires e.op.Registration?
    ensures var r := Register(s, e.op.name, e.op.adapterType, e.op.config);
            var tools := if r.Ok? then r.value.tools else s.tools;
            if Registers(e, name)
            then name in tools && tools[name] == Tool(e.op.adapterType, e.op.config, None, None)
            else (name in tools <==> name in s.tools) && (name in tools ==> tools[name] == s.tools[name])
  {
  }

  // ---------------------------------------------------------------- the cache never outlives a registration

  /** The cached schema is what the tool's present registration gave when it was cached. */
  ghost predicate EntryIsCurrent(c: Config, fetch: Fetch, s: State, name: string, now: int)
    requires name in s.cache
  {
    var at := s.cache[name].expiresAt - c.ttl * MILLIS;
    at <= now && Fetched(c, fetch, s.tools, name, at) == Ok(s.cache[name].schema)
  }

  /** And so is the stored one. */
  ghost predicate StoredIsCurrent(fetch: Fetch, tool: Tool) {
    && (tool.stored.Some? <==> tool.storedAt.Some?)
    && (tool.stored.Some? ==> fetch(tool.adapterType, tool.config, tool.storedAt.value) == Ok(tool.stored.value))
  }

  ghost predicate Current(c: Config, fetch: Fetch, s: State, now: int) {
    && (forall name :: name in s.cache ==> EntryIsCurrent(c, fetch, s, name, now))
    && (forall name :: name in s.tools ==>
          StoredIsCurrent(fetch, s.tools[name]) && s.tools[name].adapterType in ADAPTER_TYPES)
  }

  lemma QueryKeepsCurrent(c: Config, fetch: Fetch, s: State, granted: bool, name: string, now: int)
    requires Current(c, fetch, s, now)
    ensures Current(c, fetch, Get(c, fetch, s, granted, name, now).0, now)
  {
    var after := Get(c, fetch, s, granted, name, now).0;
    QueryKeepsRegistry(c, fetch, s, granted, name, now);
    forall other | other in after.cache ensures EntryIsCurrent(c, fetch, after, other, now) {
      assert other != name ==> EntryIsCurrent(c, fetch, s, other, now);
    }
  }

  lemma RegistrationKeepsCurrent(c: Config, fetch: Fetch, s: State, name: string, adapterType: string,
      config: string, now: int)
    requires Current(c, fetch, s, now)
    ensures var r := Register(s, name, adapterType, config); r.Ok? ==> Current(c, fetch, r.value, now)
  {
    var r := Register(s, name, adapterType, config);
    if r.Ok? {
      forall other | other in r.value.cache ensures EntryIsCurrent(c, fetch, r.value, other, now) {
        assert EntryIsCurrent(c, fetch, s, other, now);
      }
    }
  }

  lemma StepKeepsCurrent(c: Config, fetch: Fetch, s: State, e: Event)
    requires Current(c, fetch, s, e.now)
    ensures Current(c, fetch, Step(c, fetch, s, e), e.now)
  {
    match e.op
    case Registration(name, adapterType, config) =>
      RegistrationKeepsCurrent(c, fetch, s, name, adapterType, config, e.now);
    case FlushAll =>
    case Query(granted, name) => QueryKeepsCurrent(c, fetch, s, granted, name, e.now);
  }

  lemma {:induction false} CurrentAlong(c: Config, fetch: Fetch, events: seq<Event>, n: nat, now: int)
    requires n <= |events| && Monotone(events) && (n > 0 ==> events[n - 1].now <= now)
    ensures Current(c, fetch, After(c, fetch, events, n), now)
    decreases n
  {
    if n > 0 {
      var e := events[n - 1];
      CurrentAlong(c, fetch, events, n - 1, e.now);
      StepKeepsCurrent(c, fetch, After(c, fetch, events, n - 1), e);
      CurrentStays(c, fetch, After(c, fetch, events, n), e.now, now);
    }
  }

  lemma CurrentStays(c: Config, fetch: Fetch, s: State, now: int, later: int)
    requires Current(c, fetch, s, now) && now <= later
    ensures Current(c, fetch, s, later)
  {
    forall name | name in s.cache ensures EntryIsCurrent(c, fetch, s, name, later) {
      assert EntryIsCurrent(c, fetch, s, name, now);
    }
  }

  predicate RecentEnough(c: Config, served: Served, now: int, at: int) {
    if served.cached then now - c.ttl * MILLIS < at <= now else at == now
  }

  /** The registration's origin gave this schema at the instant, through an adapter that is installed. */
  ghost predicate GaveAt(c: Config, fetch: Fetch, registration: Op, schema: string, at: int) {
    && registration.Registration? && registration.adapterType in c.adapters
    && fetch(registration.adapterType, registration.config, at) == Ok(schema)
  }

  /**
   * A schema is only served to a caller with a grant, and it is what the tool's last registration gave at an
   * instant less than one time-to-live ago (right now, when it did not come from the cache).
   */
  lemma ServedIsCurrent(c: Config, fetch: Fetch, events: seq<Event>, k: nat)
    requires k < |events| && Monotone(events) && events[k].op.Query? && Answer(c, fetch, events, k).Ok?
    ensures events[k].op.granted
    ensures var served, now := Answer(c, fetch, events, k).value, events[k].now;
            var last := LastRegistration(events, k, events[k].op.name);
            && last.Some?
            && exists at :: GaveAt(c, fetch, events[last.value].op, served.schema, at)
                            && RecentEnough(c, served, now, at)
  {
    var s, name, now := After(c, fetch, events, k), events[k].op.name, events[k].now;
    var served := Answer(c, fetch, events, k).value;
    CurrentAlong(c, fetch, events, k, now);
    var at := if served.cached then s.cache[name].expiresAt - c.ttl * MILLIS else now;
    if served.cached {
      assert EntryIsCurrent(c, fetch, s, name, now);
    }
    RegistryTellsHistory(c, fetch, events, k, name);
    assert RecentEnough(c, served, now, at);
    assert GaveAt(c, fetch, events[LastRegistration(events, k, name).value].op, served.schema, at);
  }

  /** The schema kept in the registry is never that of an earlier registration. */
  lemma {:induction false} StoredSchemaIsCurrent(c: Config, fetch: Fetch, events: seq<Event>, n: nat, name: string)
    requires n <= |events| && Monotone(events) && LastRegistration(events, n, name).Some?
    ensures name in After(c, fetch, events, n).tools
    ensures var tool := After(c, fetch, events, n).tools[name];
            var registration := events[LastRegistration(events, n, name).value].op;
            && (tool.stored.Some? <==> tool.storedAt.Some?)
            && (tool.stored.Some? ==>
                  fetch(registration.adapterType, registration.config, tool.storedAt.value) == Ok(tool.stored.value))
  {
    RegistryTellsHistory(c, fetch, events, n, name);
    if n > 0 {
      CurrentAlong(c, fetch, events, n, events[n - 1].now);
      assert StoredIsCurrent(fetch, After(c, fetch, events, n).tools[name]);
    }
  }

  // ---------------------------------------------------------------- what is answered, and what comes from the cache

  /** Why a query is not served. */
  lemma RefusedExactlyWhen(c: Config, fetch: Fetch, events: seq<Event>, k: nat)
    requires k < |events| && Monotone(events) && events[k].op.Query?
    ensures var r, last := Answer(c, fetch, events, k), LastRegistration(events, k, events[k].op.name);
            && (r == Err(NotGranted) <==> !events[k].op.granted)
            && (r == Err(NotRegistered) <==> events[k].op.granted && last.None?)
            && (r == Err(NoAdapter) <==>
                events[k].op.granted && last.Some? && events[last.value].op.adapterType !in c.adapters)
            && (r == Err(OriginFailed) ==>
                  && last.Some?
                  && fetch(events[last.value].op.adapterType, events[last.value].op.config, events[k].now).Err?)
  {
    var s, name, now := After(c, fetch, events, k), events[k].op.name, events[k].now;
    RegistryTellsHistory(c, fetch, events, k, name);
    CurrentAlong(c, fetch, events, k, now);
    if Hit(s, name, now) {
      assert EntryIsCurrent(c, fetch, s, name, now);
    }
  }

  /** Event `i` fetched this schema of the tool. */
  predicate FetchedAt(c: Config, fetch: Fetch, events: seq<Event>, i: nat, name: string, schema: string)
    requires i < |events|
  {
    events[i].op.Query? && events[i].op.name == name && Answer(c, fetch, events, i) == Ok(Served(schema, false))
  }

  /** A fetch is kept with the row. */
  lemma FetchIsKept(c: Config, fetch: Fetch, events: seq<Event>, k: nat, name: string, schema: string)
    requires k < |events| && FetchedAt(c, fetch, events, k, name, schema)
    ensures var tools := After(c, fetch, events, k + 1).tools;
            name in tools && tools[name].stored == Some(schema) && tools[name].storedAt == Some(events[k].now)
  {
  }

  /** Nothing has dropped what was cached for the tool at event `i`: no registration of it and no flush. */
  ghost predicate NotDropped(events: seq<Event>, i: nat, n: nat, name: string)
    requires i < n <= |events|
  {
    forall j :: i < j < n ==> !Registers(events[j], name) && !events[j].op.FlushAll?
  }

  /** The tool was fetched at event `i`, less than one time-to-live before `now`, and has not been dropped since. */
  ghost predicate StillCached(c: Config, fetch: Fetch, events: seq<Event>, i: nat, n: nat, name: string,
      schema: string, now: int)
    requires i < n <= |events|
  {
    && FetchedAt(c, fetch, events, i, name, schema) && NotDropped(events, i, n, name)
    && now < events[i].now + c.ttl * MILLIS
  }

  /** At one of the first `n` events the tool was fetched so. */
  ghost predicate IsStillCached(c: Config, fetch: Fetch, events: seq<Event>, n: nat, name: string, schema: string,
      now: int)
    requires n <= |events|
  {
    exists i :: 0 <= i < n && StillCached(c, fetch, events, i, n, name, schema, now)
  }

  /** The cache has this schema for the tool, still at `now`. */
  predicate Caches(s: State, name: string, schema: string, now: int) {
    Hit(s, name, now) && s.cache[name].schema == schema
  }

  ghost predicate CacheTellsHistory(c: Config, fetch: Fetch, events: seq<Event>, n: nat, name: string, schema: string,
      now: int)
    requires n <= |events|
  {
    Caches(After(c, fetch, events, n), name, schema, now) <==> IsStillCached(c, fetch, events, n, name, schema, now)
  }

  /** What one event does to the entry of the tool, as far as it matters at `now`. */
  lemma CacheStep(c: Config, fetch: Fetch, s: State, e: Event, name: string, schema: string, now: int)
    requires e.now <= now
    ensures Caches(Step(c, fetch, s, e), name, schema, now) <==>
              || (!Registers(e, name) && !e.op.FlushAll? && Caches(s, name, schema, now))
              || (&& e.op.Query? && e.op.name == name && now < e.now + c.ttl * MILLIS
                  && Get(c, fetch, s, e.op.granted, name, e.now).1 == Ok(Served(schema, false)))
  {
  }

  lemma HistoryStep(c: Config, fetch: Fetch, events: seq<Event>, n: nat, name: string, schema: string, now: int)
    requires n < |events|
    ensures IsStillCached(c, fetch, events, n + 1, name, schema, now) <==>
              || (&& !Registers(events[n], name) && !events[n].op.FlushAll?
                  && IsStillCached(c, fetch, events, n, name, schema, now))
              || (FetchedAt(c, fetch, events, n, name, schema) && now < events[n].now + c.ttl * MILLIS)
  {
    var next := n + 1;
    forall i | 0 <= i < n
      ensures StillCached(c, fetch, events, i, next, name, schema, now) <==>
              && StillCached(c, fetch, events, i, n, name, schema, now)
              && !Registers(events[n], name) && !events[n].op.FlushAll?
    {
    }
    assert StillCached(c, fetch, events, n, next, name, schema, now) <==>
           FetchedAt(c, fetch, events, n, name, schema) && now < events[n].now + c.ttl * MILLIS;
  }

  lemma {:induction false} CacheAlong(c: Config, fetch: Fetch, events: seq<Event>, n: nat, name: string, schema: string,
      now: int)
    requires n <= |events| && Monotone(events) && (n > 0 ==> events[n - 1].now <= now)
    ensures CacheTellsHistory(c, fetch, events, n, name, schema, now)
  {
    if n > 0 {
      CacheAlong(c, fetch, events, n - 1, name, schema, now);
      CacheStep(c, fetch, After(c, fetch, events, n - 1), events[n - 1], name, schema, now);
      HistoryStep(c, fetch, events, n - 1, name, schema, now);
    }
  }

  /**
   * An answer comes from the cache exactly when the tool was fetched less than one time-to-live ago and neither
   * registered anew nor flushed since, and it is that fetch's schema.
   */
  lemma CachedExactlyWhen(c: Config, fetch: Fetch, events: seq<Event>, k: nat, schema: string)
    requires k < |events| && Monotone(events) && events[k].op.Query?
    ensures Answer(c, fetch, events, k) == Ok(Served(schema, true)) <==>
            events[k].op.granted && IsStillCached(c, fetch, events, k, events[k].op.name, schema, events[k].now)
  {
    CacheAlong(c, fetch, events, k, events[k].op.name, schema, events[k].now);
  }

  // ---------------------------------------------------------------- against a router without a cache

  function Uncached(c: Config): Config {
    c.(ttl := 0)
  }

  /** The same registrations; what the rows store may differ. */
  ghost predicate SameRegistry(a: map<string, Tool>, b: map<string, Tool>) {
    && a.Keys == b.Keys
    && forall name :: name in a ==> a[name].adapterType == b[name].adapterType && a[name].config == b[name].config
  }

  lemma {:induction false} SameRegistryAlong(c: Config, d: Config, fetch: Fetch, events: seq<Event>, n: nat)
    requires n <= |events|
    ensures SameRegistry(After(c, fetch, events, n).tools, After(d, fetch, events, n).tools)
  {
    if n > 0 {
      SameRegistryAlong(c, d, fetch, events, n - 1);
      StepKeepsRegistry(c, d, fetch, After(c, fetch, events, n - 1), After(d, fetch, events, n - 1), events[n - 1]);
    }
  }

  lemma StepKeepsRegistry(c: Config, d: Config, fetch: Fetch, s: State, t: State, e: Event)
    requires SameRegistry(s.tools, t.tools)
    ensures SameRegistry(Step(c, fetch, s, e).tools, Step(d, fetch, t, e).tools)
  {
    if e.op.Query? {
      QueryKeepsRegistry(c, fetch, s, e.op.granted, e.op.name, e.now);
      QueryKeepsRegistry(d, fetch, t, e.op.granted, e.op.name, e.now);
    }
  }

  lemma QueryKeepsRegistry(c: Config, fetch: Fetch, s: State, granted: bool, name: string, now: int)
    ensures SameRegistry(s.tools, Get(c, fetch, s, granted, name, now).0.tools)
  {
  }

  lemma {:induction false} NothingIsCached(c: Config, fetch: Fetch, events: seq<Event>, n: nat)
    requires n <= |events| && c.ttl <= 0
    ensures After(c, fetch, events, n).cache == map[]
  {
    if n > 0 {
      NothingIsCached(c, fetch, events, n - 1);
    }
  }

  /** The answer apart from whether it came from the cache. */
  function Content(r: Result<Served, Error>): Result<string, Error> {
    match r
    case Ok(served) => Ok(served.schema)
    case Err(e) => Err(e)
  }

  /** What a router without a cache answers: the access check, then the fetch. */
  lemma UncachedAnswer(c: Config, fetch: Fetch, events: seq<Event>, k: nat)
    requires k < |events| && events[k].op.Query?
    ensures var op := events[k].op;
            Content(Answer(Uncached(c), fetch, events, k)) ==
            if op.granted then Fetched(c, fetch, After(c, fetch, events, k).tools, op.name, events[k].now)
            else Err(NotGranted)
  {
    NothingIsCached(Uncached(c), fetch, events, k);
    SameRegistryAlong(c, Uncached(c), fetch, events, k);
  }

  /** Whatever an origin answers it goes on answering for one time-to-live. */
  ghost predicate Steady(c: Config, fetch: Fetch) {
    forall adapterType, config, from, to ::
      adapterType in c.adapters && adapterType in ADAPTER_TYPES && from <= to < from + c.ttl * MILLIS
      && fetch(adapterType, config, from).Ok?
      ==> fetch(adapterType, config, to) == fetch(adapterType, config, from)
  }

  ghost predicate AnswersAlike(c: Config, fetch: Fetch, events: seq<Event>, k: nat)
    requires k < |events|
  {
    events[k].op.Query? ==> Content(Answer(c, fetch, events, k)) == Content(Answer(Uncached(c), fetch, events, k))
  }

  ghost predicate CacheIsInvisible(c: Config, fetch: Fetch) {
    forall events: seq<Event>, k: nat :: Monotone(events) && k < |events| ==> AnswersAlike(c, fetch, events, k)
  }

  /** Over every run the cached router gives the schemas and the errors of the uncached one iff origins are steady. */
  lemma InvisibleExactlyWhenSteady(c: Config, fetch: Fetch)
    ensures CacheIsInvisible(c, fetch) <==> Steady(c, fetch)
  {
    if Steady(c, fetch) {
      forall events: seq<Event>, k: nat | Monotone(events) && k < |events| ensures AnswersAlike(c, fetch, events, k) {
        if events[k].op.Query? {
          SteadyAnswersAlike(c, fetch, events, k);
        }
      }
    } else {
      var adapterType, config, from, to :|
        adapterType in c.adapters && adapterType in ADAPTER_TYPES && from <= to < from + c.ttl * MILLIS
        && fetch(adapterType, config, from).Ok? && fetch(adapterType, config, to) != fetch(adapterType, config, from);
      UnsteadyShows(c, fetch, adapterType, config, from, to);
    }
  }

  lemma SteadyAnswersAlike(c: Config, fetch: Fetch, events: seq<Event>, k: nat)
    requires Steady(c, fetch) && Monotone(events) && k < |events| && events[k].op.Query?
    ensures AnswersAlike(c, fetch, events, k)
  {
    var s, name, now := After(c, fetch, events, k), events[k].op.name, events[k].now;
    UncachedAnswer(c, fetch, events, k);
    CurrentAlong(c, fetch, events, k, now);
    if Hit(s, name, now) {
      assert EntryIsCurrent(c, fetch, s, name, now);
    }
  }

  /** The origin changes its answer between `from` and `to`; a cached router does not notice. */
  function UnsteadyRun(adapterType: string, config: string, from: int, to: int): seq<Event> {
    [Event(Registration("t", adapterType, config), from), Event(Query(true, "t"), from), Event(Query(true, "t"), to)]
  }

  lemma UnsteadyShows(c: Config, fetch: Fetch, adapterType: string, config: string, from: int, to: int)
    requires adapterType in c.adapters && adapterType in ADAPTER_TYPES && from <= to < from + c.ttl * MILLIS
    requires fetch(adapterType, config, from).Ok? && fetch(adapterType, config, to) != fetch(adapterType, config, from)
    ensures !CacheIsInvisible(c, fetch)
  {
    var events := UnsteadyRun(adapterType, config, from, to);
    assert After(c, fetch, events, 0) == State(map[], map[]) && |"t"| == 1;
    var s1 := After(c, fetch, events, 1);
    assert s1.tools == map["t" := Tool(adapterType, config, None, None)] && s1.cache == map[];
    var s2 := After(c, fetch, events, 2);
    assert s2.cache["t"] == Entry(fetch(adapterType, config, from).value, from + c.ttl * MILLIS);
    UncachedAnswer(c, fetch, events, 2);
    assert s2.tools["t"].adapterType == adapterType && s2.tools["t"].config == config;
    assert Monotone(events) && !AnswersAlike(c, fetch, events, 2);
  }
}
