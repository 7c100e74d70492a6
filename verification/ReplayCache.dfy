/**
 * The `jti` replay cache (RFC 7519, section 4.1.7) and the claim-validation stage in front of it.
 *
 * The stage compares whole seconds (it floors its clock), the store compares milliseconds, and the two
 * clocks are read one after the other. `Presentation` therefore carries both instants.
 */
module ReplayCache {
  import opened Common

  /** The claims the stage looks at; `None` stands for a claim that is not a number. */
  datatype Claims = Claims(aud: string, exp: Option<int>, iat: Option<int>, jti: string)

  datatype Config = Config(issuer: string, skew: int)

  datatype ClaimError = WrongAudience | Expired | IssuedInFuture | MissingJti | Replayed

  type Rows = map<string, int>

  // ---------------------------------------------------------------- the store

  predicate IsFresh(rows: Rows, jti: string, now: int) {
    jti !in rows || rows[jti] < now
  }

  /** What purging does to the table: rows whose window ended before `now` go away. */
  function Purged(rows: Rows, now: int): Rows {
    map jti | jti in rows && rows[jti] >= now :: rows[jti]
  }

  class JtiCache {
    var rows: Rows

    constructor ()
      ensures rows == map[]
    {
      rows := map[];
    }

    /** True only for a row that is present and still within its window. */
    method Has(jti: string, now: int) returns (present: bool)
      ensures present <==> !IsFresh(rows, jti, now)
    {
      present := jti in rows && rows[jti] >= now;
    }

    /** One atomic upsert that only overwrites a row whose window has ended. */
    method Put(jti: string, expiresAt: int, now: int) returns (recorded: bool)
      modifies this
      ensures recorded <==> IsFresh(old(rows), jti, now)
      ensures recorded ==> rows == old(rows)[jti := expiresAt]
      ensures !recorded ==> rows == old(rows)
    {
      if jti !in rows {
        rows := rows[jti := expiresAt];
        return true;
      }
      if rows[jti] < now {
        rows := rows[jti := expiresAt];
        return true;
      }
      return false;
    }

    method PurgeExpired(now: int) returns (removed: nat)
      modifies this
      ensures rows == Purged(old(rows), now)
      ensures removed == |old(rows)| - |rows|
      ensures forall jti, t :: t >= now ==> (IsFresh(rows, jti, t) <==> IsFresh(old(rows), jti, t))
    {
      var kept := Purged(rows, now);
      assert rows.Keys == kept.Keys + (rows.Keys - kept.Keys);
      removed := |rows.Keys - kept.Keys|;
      rows := kept;
    }
  }

  // ---------------------------------------------------------------- the stage

  /** The instant, in milliseconds, until which the store refuses the token's jti. */
  function WindowEnd(config: Config, claims: Claims): int
    requires claims.exp.Some?
  {
    (claims.exp.value + config.skew) * MILLIS
  }

  /** The part of the stage that does not depend on the store. `readAt` is the stage's clock in milliseconds. */
  function CheckClaims(config: Config, claims: Claims, readAt: int): Option<ClaimError> {
    var nowSec := readAt / MILLIS;
    if claims.aud != config.issuer then Some(WrongAudience)
    else if claims.exp.None? || nowSec > claims.exp.value + config.skew then Some(Expired)
    else if claims.iat.None? || claims.iat.value > nowSec + config.skew then Some(IssuedInFuture)
    else if claims.jti == "" then Some(MissingJti)
    else None
  }

  class ClaimValidationStage {
    const config: Config
    const cache: JtiCache

    constructor (config: Config, cache: JtiCache)
      ensures this.config == config && this.cache == cache
    {
      this.config := config;
      this.cache := cache;
    }

    /** The checks in order, then the jti is recorded for lifetime plus skew. */
    method Execute(claims: Claims, readAt: int, putAt: int) returns (r: Result<(), ClaimError>)
      modifies cache
      ensures (r, cache.rows) == Validate(config, old(cache.rows), Presentation(claims, readAt, putAt))
    {
      var nowSec := readAt / MILLIS;
      if claims.aud != config.issuer {
        return Err(WrongAudience);
      }
      if claims.exp.None? || nowSec > claims.exp.value + config.skew {
        return Err(Expired);
      }
      if claims.iat.None? || claims.iat.value > nowSec + config.skew {
        return Err(IssuedInFuture);
      }
      if claims.jti == "" {
        return Err(MissingJti);
      }
      var recorded := cache.Put(claims.jti, WindowEnd(config, claims), putAt);
      if !recorded {
        return Err(Replayed);
      }
      return Ok(());
    }
  }

  /** One arrival of a token: the stage reads its clock at `readAt`, the store compares at `putAt`. */
  datatype Presentation = Presentation(claims: Claims, readAt: int, putAt: int)

  function Validate(config: Config, rows: Rows, p: Presentation): (Result<(), ClaimError>, Rows) {
    match CheckClaims(config, p.claims, p.readAt)
    case Some(error) => (Err(error), rows)
    case None =>
      if IsFresh(rows, p.claims.jti, p.putAt)
      then (Ok(()), rows[p.claims.jti := WindowEnd(config, p.claims)])
      else (Err(Replayed), rows)
  }

  // ---------------------------------------------------------------- whole runs

  datatype Event = Present(p: Presentation) | Purge(now: int)

  /** When an event reaches the store. */
  function StoreTime(e: Event): int {
    match e
    case Present(p) => p.putAt
    case Purge(now) => now
  }

  ghost predicate Monotone(events: seq<Event>) {
    forall i, j :: 0 <= i < j < |events| ==> StoreTime(events[i]) <= StoreTime(events[j])
  }

  function Next(config: Config, rows: Rows, e: Event): Rows {
    match e
    case Present(p) => Validate(config, rows, p).1
    case Purge(now) => Purged(rows, now)
  }

  /** The table after the first `n` events, starting empty. */
  function RowsAfter(config: Config, events: seq<Event>, n: nat): Rows
    requires n <= |events|
  {
    if n == 0 then map[] else Next(config, RowsAfter(config, events, n - 1), events[n - 1])
  }

  predicate Accepted(config: Config, events: seq<Event>, i: nat)
    requires i < |events|
  {
    events[i].Present? && Validate(config, RowsAfter(config, events, i), events[i].p).0.Ok?
  }

  /** What the stage demands of a token's claims; a clock reading counts in seconds, rounded down. */
  predicate ClaimsHold(config: Config, claims: Claims, readAt: int) {
    && claims.aud == config.issuer
    && claims.exp.Some? && readAt / MILLIS <= claims.exp.value + config.skew
    && claims.iat.Some? && claims.iat.value - config.skew <= readAt / MILLIS
    && claims.jti != ""
  }

  /** The lifetime of the token, with the skew, reaches the instant `now`. */
  predicate Lasts(config: Config, claims: Claims, now: int) {
    claims.exp.Some? && now <= (claims.exp.value + config.skew) * MILLIS
  }

  /** Event `i` was an accepted presentation of `jti` whose window still covers the instant `now`. */
  predicate Covers(config: Config, events: seq<Event>, i: nat, jti: string, now: int)
    requires i < |events|
  {
    Accepted(config, events, i)
    && events[i].p.claims.jti == jti
    && Lasts(config, events[i].p.claims, now)
  }

  /** The table agrees with the full history for every instant from `now` on. */
  ghost predicate Faithful(config: Config, events: seq<Event>, n: nat, now: int)
    requires n <= |events|
  {
    var rows := RowsAfter(config, events, n);
    forall jti, t :: now <= t ==>
      (!IsFresh(rows, jti, t) <==> exists i :: 0 <= i < n && Covers(config, events, i, jti, t))
  }

  lemma FaithfulPurge(config: Config, events: seq<Event>, n: nat, now: int)
    requires n < |events| && events[n].Purge? && now <= events[n].now
    requires Faithful(config, events, n, now)
    ensures Faithful(config, events, n + 1, events[n].now)
  {
    var rows, next := RowsAfter(config, events, n), RowsAfter(config, events, n + 1);
    forall jti, t | events[n].now <= t
      ensures !IsFresh(next, jti, t) <==> exists i :: 0 <= i < n + 1 && Covers(config, events, i, jti, t)
    {
      assert IsFresh(next, jti, t) <==> IsFresh(rows, jti, t);
      assert !Accepted(config, events, n);
    }
  }

  lemma FaithfulPresent(config: Config, events: seq<Event>, n: nat, now: int)
    requires n < |events| && events[n].Present? && now <= events[n].p.putAt
    requires Faithful(config, events, n, now)
    ensures Faithful(config, events, n + 1, events[n].p.putAt)
  {
    var p := events[n].p;
    var rows, next := RowsAfter(config, events, n), RowsAfter(config, events, n + 1);
    forall jti, t | p.putAt <= t
      ensures !IsFresh(next, jti, t) <==> exists i :: 0 <= i < n + 1 && Covers(config, events, i, jti, t)
    {
      assert !IsFresh(rows, jti, t) <==> exists i :: 0 <= i < n && Covers(config, events, i, jti, t);
      if Accepted(config, events, n) && jti == p.claims.jti {
        assert next == rows[jti := WindowEnd(config, p.claims)];
        assert IsFresh(rows, jti, p.putAt);
        assert IsFresh(rows, jti, t);
        assert !IsFresh(next, jti, t) <==> Covers(config, events, n, jti, t);
      } else {
        assert !IsFresh(next, jti, t) <==> !IsFresh(rows, jti, t);
        assert !Covers(config, events, n, jti, t);
      }
    }
  }

  lemma {:induction false} FaithfulAlong(config: Config, events: seq<Event>, n: nat)
    requires n < |events| && Monotone(events)
    ensures Faithful(config, events, n, StoreTime(events[n]))
  {
    if n > 0 {
      FaithfulAlong(config, events, n - 1);
      var now := StoreTime(events[n - 1]);
      if events[n - 1].Purge? {
        FaithfulPurge(config, events, n - 1, now);
      } else {
        FaithfulPresent(config, events, n - 1, now);
      }
    }
  }

  /**
   * The cache, purges included, decides every presentation exactly as a checker that remembers the whole
   * run: accept iff the claims hold and no earlier acceptance of the jti still covers this instant; and it calls a
   * token a replay iff the claims hold and one does.
   */
  lemma CacheDecidesLikeHistory(config: Config, events: seq<Event>, k: nat)
    requires k < |events| && Monotone(events) && events[k].Present?
    ensures var p := events[k].p;
            var replayed := exists i :: 0 <= i < k && Covers(config, events, i, p.claims.jti, p.putAt);
            && (Accepted(config, events, k) <==> ClaimsHold(config, p.claims, p.readAt) && !replayed)
            && (Validate(config, RowsAfter(config, events, k), p).0 == Err(Replayed) <==>
                ClaimsHold(config, p.claims, p.readAt) && replayed)
  {
    FaithfulAlong(config, events, k);
    var p := events[k].p;
    var rows := RowsAfter(config, events, k);
    assert !IsFresh(rows, p.claims.jti, p.putAt) <==>
           exists i :: 0 <= i < k && Covers(config, events, i, p.claims.jti, p.putAt);
  }

  /** A refusal before the store is asked names the first demand of the claims that fails, and records nothing. */
  lemma RefusalNamesTheClaim(config: Config, rows: Rows, p: Presentation)
    ensures var (r, after) := Validate(config, rows, p);
            var claims, second := p.claims, p.readAt / MILLIS;
            var lasts := claims.exp.Some? && second <= claims.exp.value + config.skew;
            var issued := claims.iat.Some? && claims.iat.value - config.skew <= second;
            && (r == Err(WrongAudience) <==> claims.aud != config.issuer)
            && (r == Err(Expired) <==> claims.aud == config.issuer && !lasts)
            && (r == Err(IssuedInFuture) <==> claims.aud == config.issuer && lasts && !issued)
            && (r == Err(MissingJti) <==> claims.aud == config.issuer && lasts && issued && claims.jti == "")
            && (r.Err? ==> after == rows)
  {
  }

  /** Once recorded, a jti is dead up to and including the end of its window, whatever happens in between. */
  lemma NoReplayWithinWindow(config: Config, events: seq<Event>, i: nat, k: nat)
    requires i < k < |events| && Monotone(events)
    requires Accepted(config, events, i)
    requires events[k].Present? && events[k].p.claims.jti == events[i].p.claims.jti
    requires Lasts(config, events[i].p.claims, events[k].p.putAt)
    ensures !Accepted(config, events, k)
  {
    CacheDecidesLikeHistory(config, events, k);
    assert Covers(config, events, i, events[k].p.claims.jti, events[k].p.putAt);
  }

  /** Time in whole seconds: the store's clock has not moved past the second the stage floored to. */
  predicate OnTheSecond(p: Presentation) {
    p.putAt <= p.readAt / MILLIS * MILLIS
  }

  /** With time in whole seconds (both clocks read as one) a token is accepted at most once in the whole run. */
  lemma AtMostOnce(config: Config, events: seq<Event>, i: nat, k: nat)
    requires i < k < |events| && Monotone(events)
    requires events[i].Present? && events[k].Present?
    requires events[i].p.claims == events[k].p.claims
    requires OnTheSecond(events[k].p)
    ensures !(Accepted(config, events, i) && Accepted(config, events, k))
  {
    if Accepted(config, events, i) && Accepted(config, events, k) {
      var p := events[k].p;
      assert p.readAt / MILLIS <= p.claims.exp.value + config.skew;
      assert Lasts(config, p.claims, p.putAt);
      NoReplayWithinWindow(config, events, i, k);
    }
  }

  /** The last second of the window: the stage still passes the token while the store already lets go of it. */
  predicate InFinalSecondGap(config: Config, p: Presentation)
    requires p.claims.exp.Some?
  {
    p.readAt / MILLIS <= p.claims.exp.value + config.skew && !Lasts(config, p.claims, p.putAt)
  }

  /**
   * At millisecond precision "at most once" fails, and this says exactly when. After an acceptance at `i`
   * with no other acceptance of that jti up to `k`, the same token passes again at `k` iff the two clock
   * readings straddle the end of the window (its audience and issue time being fine now as before).
   */
  lemma ReplayPassesExactlyInTheGap(config: Config, events: seq<Event>, i: nat, k: nat)
    requires i < k < |events| && Monotone(events)
    requires Accepted(config, events, i)
    requires events[k].Present? && events[k].p.claims == events[i].p.claims
    requires events[i].p.readAt <= events[k].p.readAt
    requires forall j :: i < j < k && events[j].Present? && events[j].p.claims.jti == events[i].p.claims.jti
                         ==> !Accepted(config, events, j)
    ensures Accepted(config, events, k) <==> InFinalSecondGap(config, events[k].p)
  {
    var p, jti := events[k].p, events[k].p.claims.jti;
    CacheDecidesLikeHistory(config, events, k);
    if !Lasts(config, p.claims, p.putAt) {
      forall j | 0 <= j < k ensures !Covers(config, events, j, jti, p.putAt) {
        if j < i && Covers(config, events, j, jti, p.putAt) {
          assert events[i].p.putAt <= p.putAt;
          NoReplayWithinWindow(config, events, j, i);
        }
      }
    } else {
      assert Covers(config, events, i, jti, p.putAt);
    }
  }

  /** A concrete run in which one token is accepted twice, half a second apart, by a single clock. */
  lemma AcceptedTwiceInTheFinalSecond()
    ensures var config := Config("gw", 0);
            var claims := Claims("gw", Some(60), Some(0), "j");
            var events := [Present(Presentation(claims, 1000, 1000)), Present(Presentation(claims, 60500, 60500))];
            Monotone(events) && Accepted(config, events, 0) && Accepted(config, events, 1)
  {
    var config := Config("gw", 0);
    var claims := Claims("gw", Some(60), Some(0), "j");
    var events := [Present(Presentation(claims, 1000, 1000)), Present(Presentation(claims, 60500, 60500))];
    assert RowsAfter(config, events, 0) == map[];
    assert Accepted(config, events, 0);
    assert RowsAfter(config, events, 1) == map["j" := 60000];
  }
}
