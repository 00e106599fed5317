/**
 The role cache in front of the identity service: what a caller's roles are for,
 and how concurrent requests load, delete and store their shared entries.
 */
module RoleCache {
  import opened Wrappers

  datatype Roles = Roles(admin: bool, tenantManager: bool, baseStationManager: bool, endpointManager: bool)

  const NO_ROLES := Roles(false, false, false, false)

  /** An organization's UUID as text, or none. */
  type OrgId = s: string | ':' !in s witness ""

  datatype Principal = User(id: string) | ServiceAccount(id: string)

  datatype Request = Request(org: OrgId, principal: Principal)

  /** What a request's context carries. */
  datatype Context = Context(org: Option<OrgId>, user: Option<string>, serviceAccount: Option<string>)

  /** What the identity service answers. */
  datatype Answer = Found(roles: Roles) | NotFound | Unavailable

  datatype Error = MissingUserContext | InternalError

  datatype Cached = Cached(roles: Roles, expiresAt: int)

  type Cache = map<string, Cached>

  /** The caller: the signed-in user, or else its service account. */
  function RolesRequest(ctx: Context): Result<Request, Error> {
    var org: OrgId := if ctx.org.Some? then ctx.org.value else "";
    if ctx.user.Some? then Success(Request(org, User(ctx.user.value)))
    else if ctx.serviceAccount.Some? then Success(Request(org, ServiceAccount(ctx.serviceAccount.value)))
    else Failure(MissingUserContext)
  }

  function Kind(p: Principal): string {
    match p
    case User(_) => "user"
    case ServiceAccount(_) => "service_account"
  }

  function Key(r: Request): string {
    r.org + ":" + Kind(r.principal) + ":" + r.principal.id
  }

  /** An unknown user or key holds no roles. */
  function RolesOf(answer: Answer): Roles
    requires !answer.Unavailable?
  {
    if answer.Found? then answer.roles else NO_ROLES
  }

  /** An answer grants those roles: the ones found, and none for an unknown caller. */
  predicate Grants(answer: Answer, roles: Roles) {
    match answer
    case Found(found) => roles == found
    case NotFound => !roles.admin && !roles.tenantManager && !roles.baseStationManager && !roles.endpointManager
    case Unavailable => false
  }

  /** The roles are asked for the signed-in user, without one for its service account, and for no one else. */
  lemma RequestNamesTheCaller(ctx: Context)
    ensures RolesRequest(ctx).Failure? <==> ctx.user.None? && ctx.serviceAccount.None?
    ensures RolesRequest(ctx).Success? ==>
              var r := RolesRequest(ctx).value;
              && (if ctx.user.Some? then r.principal == User(ctx.user.value)
                  else r.principal.ServiceAccount? && Some(r.principal.id) == ctx.serviceAccount)
              && (if ctx.org.Some? then r.org == ctx.org.value else r.org == "")
  {
  }

  // ----- the key -----

  lemma NoColonBefore(a: string, x: string, n: nat)
    requires ':' !in a && n < |a + ":" + x| && (a + ":" + x)[n] == ':'
    ensures |a| <= n
  {
    assert forall i | 0 <= i < |a| :: (a + ":" + x)[i] == a[i];
  }

  lemma SplitAtTheFirstColon(a: string, b: string, x: string, y: string)
    requires ':' !in a && ':' !in b && a + ":" + x == b + ":" + y
    ensures a == b && x == y
  {
    var s, t := a + ":" + x, b + ":" + y;
    NoColonBefore(a, x, |b|);
    NoColonBefore(b, y, |a|);
    assert a == s[..|a|] && b == t[..|b|];
    assert x == s[|a| + 1..] && y == t[|b| + 1..];
  }

  /** Requests share a key only when they name the same organization, kind and principal. */
  lemma KeyIsInjective(r: Request, s: Request)
    requires Key(r) == Key(s)
    ensures r == s
  {
    var p, q := Kind(r.principal) + ":" + r.principal.id, Kind(s.principal) + ":" + s.principal.id;
    assert Key(r) == r.org + ":" + p && Key(s) == s.org + ":" + q;
    SplitAtTheFirstColon(r.org, s.org, p, q);
    SplitAtTheFirstColon(Kind(r.principal), Kind(s.principal), r.principal.id, s.principal.id);
    assert "user" != "service_account" by { assert |"user"| != |"service_account"|; }
  }

  // ----- the steps of concurrent requests -----

  /** A step on the shared cache; any steps of other requests may come between the steps of one. */
  datatype Step =
    | Load(request: Request, at: int)
    | Delete(request: Request, at: int)
    | Settle(request: Request, answer: Answer, at: int)  // identity's answer, stored at that time unless it is a failure

  /** The entry a load finds still valid. */
  function Hit(cache: Cache, r: Request, now: int): Option<Roles> {
    if Key(r) in cache && now < cache[Key(r)].expiresAt then Some(cache[Key(r)].roles) else None
  }

  function After(ttl: int, cache: Cache, step: Step): Cache {
    match step
    case Load(_, _) => cache
    case Delete(r, _) => cache - {Key(r)}
    case Settle(r, answer, at) => if answer.Unavailable? then cache else cache[Key(r) := Cached(RolesOf(answer), at + ttl)]
  }

  function Run(ttl: int, cache: Cache, steps: seq<Step>): Cache {
    if steps == [] then cache else After(ttl, Run(ttl, cache, steps[..|steps| - 1]), steps[|steps| - 1])
  }

  /** The step changes the entry of that request. */
  predicate Touches(step: Step, r: Request) {
    step.request == r && (step.Delete? || (step.Settle? && !step.answer.Unavailable?))
  }

  /** Step j stored an answer for the request, and no later step touched it. */
  predicate LastStored(steps: seq<Step>, r: Request, j: nat) {
    j < |steps| && steps[j].Settle? && Touches(steps[j], r) && forall k | j < k < |steps| :: !Touches(steps[k], r)
  }

  /** A step changes a request's entry exactly when it touches it: a delete drops it, an answer replaces it. */
  lemma EntryAfter(ttl: int, cache: Cache, step: Step, r: Request)
    ensures var after := After(ttl, cache, step);
            if !Touches(step, r) then (Key(r) in after <==> Key(r) in cache) && (Key(r) in cache ==> after[Key(r)] == cache[Key(r)])
            else if step.Delete? then Key(r) !in after
            else Key(r) in after && after[Key(r)] == Cached(RolesOf(step.answer), step.at + ttl)
  {
    if Key(step.request) == Key(r) {
      KeyIsInjective(step.request, r);
    }
  }

  lemma OneStepLater(steps: seq<Step>, r: Request, j: nat)
    requires steps != [] && !Touches(steps[|steps| - 1], r)
    ensures LastStored(steps, r, j) <==> LastStored(steps[..|steps| - 1], r, j)
  {
    var front := steps[..|steps| - 1];
    assert forall k | 0 <= k < |front| :: front[k] == steps[k];
    if LastStored(front, r, j) {
      forall k | j < k < |steps| ensures !Touches(steps[k], r) {
        assert k < |front| ==> !Touches(front[k], r);
      }
    }
    if LastStored(steps, r, j) {
      forall k | j < k < |front| ensures !Touches(front[k], r) {
        assert !Touches(steps[k], r);
      }
    }
  }

  /** Every key of the cache is some request's, and its entry the last answer stored for it; every such answer is in the cache. */
  lemma {:induction false} CacheHoldsTheLastAnswers(ttl: int, steps: seq<Step>, r: Request)
    ensures Key(r) in Run(ttl, map[], steps) <==> exists j: nat :: LastStored(steps, r, j)
    ensures forall j: nat :: LastStored(steps, r, j) ==>
              Key(r) in Run(ttl, map[], steps)
              && Run(ttl, map[], steps)[Key(r)] == Cached(RolesOf(steps[j].answer), steps[j].at + ttl)
  {
    if steps == [] {
    } else {
      var n := |steps| - 1;
      var front, last := steps[..n], steps[n];
      CacheHoldsTheLastAnswers(ttl, front, r);
      EntryAfter(ttl, Run(ttl, map[], front), last, r);
      if Touches(last, r) {
        forall j: nat | LastStored(steps, r, j) ensures j == n {
        }
        if last.Settle? {
          assert LastStored(steps, r, n);
        }
      } else {
        forall j: nat ensures LastStored(steps, r, j) <==> LastStored(front, r, j) {
          OneStepLater(steps, r, j);
        }
      }
    }
  }

  /** The clock never runs backwards over the steps, nor before the time that follows them. */
  ghost predicate Monotone(steps: seq<Step>, now: int) {
    && (forall i, j | 0 <= i < j < |steps| :: steps[i].at <= steps[j].at)
    && (forall i | 0 <= i < |steps| :: steps[i].at <= now)
  }

  /**
   A load is answered from the cache exactly when the last answer stored for that same
   organization and principal is younger than the TTL and was not deleted since; what it
   is given is that answer, an unknown caller holding no roles, and never a failure.
   */
  lemma HitsAreRecentAnswers(ttl: int, steps: seq<Step>, r: Request, now: int, roles: Roles)
    requires Monotone(steps, now)
    ensures Hit(Run(ttl, map[], steps), r, now) == Some(roles)
            <==> exists j: nat :: LastStored(steps, r, j) && now - ttl < steps[j].at <= now && Grants(steps[j].answer, roles)
  {
    CacheHoldsTheLastAnswers(ttl, steps, r);
    if Hit(Run(ttl, map[], steps), r, now) == Some(roles) {
      var j: nat :| LastStored(steps, r, j);
      assert now - ttl < steps[j].at <= now && Grants(steps[j].answer, roles);
    }
  }

  lemma RunAppends(ttl: int, cache: Cache, steps: seq<Step>, last: Step)
    ensures Run(ttl, cache, steps + [last]) == After(ttl, Run(ttl, cache, steps), last)
  {
    assert (steps + [last])[..|steps|] == steps;
  }

  /** A failed lookup leaves every entry as it was, wherever it falls among other steps. */
  lemma {:induction false} FailuresAreNeverCached(ttl: int, cache: Cache, before: seq<Step>, failure: Step, rest: seq<Step>)
    requires failure.Settle? && failure.answer.Unavailable?
    ensures Run(ttl, cache, before + [failure] + rest) == Run(ttl, cache, before + rest)
    decreases |rest|
  {
    if rest == [] {
      RunAppends(ttl, cache, before, failure);
      assert before + [failure] + rest == before + [failure] && before + rest == before;
    } else {
      var front, last := rest[..|rest| - 1], rest[|rest| - 1];
      FailuresAreNeverCached(ttl, cache, before, failure, front);
      RunAppends(ttl, cache, before + [failure] + front, last);
      RunAppends(ttl, cache, before + front, last);
      assert before + [failure] + rest == before + [failure] + front + [last] && before + rest == before + front + [last];
    }
  }

  // ----- one request -----

  /** The steps a request takes when nothing comes between them. */
  function StepsOf(cache: Cache, r: Request, loadedAt: int, answer: Answer, storedAt: int): seq<Step> {
    if Hit(cache, r, loadedAt).Some? then [Load(r, loadedAt)]
    else
      [Load(r, loadedAt)]
      + (if Key(r) in cache then [Delete(r, loadedAt)] else [])
      + [Settle(r, answer, storedAt)]
  }

  /** A request that nothing comes between leaves its answer in the cache for the TTL; a hit changes nothing, a failure drops the stale entry. */
  lemma RequestLeaves(ttl: int, cache: Cache, r: Request, loadedAt: int, answer: Answer, storedAt: int)
    ensures Run(ttl, cache, StepsOf(cache, r, loadedAt, answer, storedAt))
            == if Key(r) in cache && loadedAt < cache[Key(r)].expiresAt then cache
               else if answer.Unavailable? then cache - {Key(r)}
               else cache[Key(r) := Cached(RolesOf(answer), storedAt + ttl)]
  {
    var steps := StepsOf(cache, r, loadedAt, answer, storedAt);
    var load, settle := Load(r, loadedAt), Settle(r, answer, storedAt);
    assert [load][..0] == [] && Run(ttl, cache, [load]) == cache;
    if Hit(cache, r, loadedAt).None? {
      if Key(r) in cache {
        var delete := Delete(r, loadedAt);
        assert steps == [load, delete, settle] && steps[..2] == [load, delete] && [load, delete][..1] == [load];
        assert Run(ttl, cache, [load, delete]) == cache - {Key(r)};
      } else {
        assert steps == [load, settle] && steps[..1] == [load];
        assert cache - {Key(r)} == cache;
      }
      assert answer.Unavailable? || (cache - {Key(r)})[Key(r) := Cached(RolesOf(answer), storedAt + ttl)]
                                    == cache[Key(r) := Cached(RolesOf(answer), storedAt + ttl)];
    }
  }

  class IdentityRoleSource {
    const cacheTtl: int
    var cache: Cache

    constructor (cacheTtl: int)
      ensures this.cacheTtl == cacheTtl && cache == map[]
    {
      this.cacheTtl, cache := cacheTtl, map[];
    }

    /** Resolves the caller's roles: from the cache while they are valid, otherwise from the identity service. */
    method Resolve(ctx: Context, loadedAt: int, answer: Answer, storedAt: int) returns (result: Result<Roles, Error>)
      modifies this`cache
      ensures RolesRequest(ctx).Failure? ==> result == Failure(RolesRequest(ctx).fault) && cache == old(cache)
      ensures RolesRequest(ctx).Success? ==>
                var r := RolesRequest(ctx).value;
                && cache == Run(cacheTtl, old(cache), StepsOf(old(cache), r, loadedAt, answer, storedAt))
                && result == (if Hit(old(cache), r, loadedAt).Some? then Success(Hit(old(cache), r, loadedAt).value)
                              else if answer.Unavailable? then Failure(InternalError)
                              else Success(RolesOf(answer)))
    {
      var request := RolesRequest(ctx);
      if request.Failure? {
        return Failure(request.fault);
      }
      var r := request.value;
      var key := Key(r);
      ghost var before := cache;
      RequestLeaves(cacheTtl, cache, r, loadedAt, answer, storedAt);
      if key in cache {
        if loadedAt < cache[key].expiresAt {
          return Success(cache[key].roles);
        }
        cache := cache - {key};
      }
      var roles := NO_ROLES;
      match answer {
        case NotFound =>
        case Unavailable =>
          return Failure(InternalError);
        case Found(found) =>
          roles := found;
      }
      cache := cache[key := Cached(roles, storedAt + cacheTtl)];
      return Success(roles);
    }
  }
}
