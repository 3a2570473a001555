/**
 * The subject cache used by access-control policy evaluation: caches of users
 * (by name and by id) and of teams (by id) in front of the repositories, and
 * the questions policies ask of them: whether a team lies in the hierarchy of
 * a named team, whether a user holds a role directly or through a team, and
 * which roles a list of teams passes down.
 */
module PolicyEvaluator {
  import opened Options
  import opened Caching
  import opened Teams

  /** The exceptions the modelled operations let escape. */
  datatype Fault = NullPointer | EntityNotFound

  /** A value, or the exception thrown instead of returning one. */
  datatype Outcome<T> = Ok(value: T) | Thrown(fault: Fault)

  /** Every key of `cache` that `before` lacks is a team reachable from `refs` in `store`. */
  ghost predicate LoadedOnlyFrom(cache: map<Uuid, Team>, before: map<Uuid, Team>, store: TeamStore,
                                 refs: seq<EntityReference>) {
    forall id :: id in cache && id !in before ==> ReachesFrom(store, refs, id)
  }

  /** Every team of `store` reachable from `refs` is a key of `cache`. */
  ghost predicate LoadedAllFrom(cache: map<Uuid, Team>, store: TeamStore, refs: seq<EntityReference>) {
    forall id :: id in store && ReachesFrom(store, refs, id) ==> id in cache
  }

  /**
   * A walk that kept the view, kept every entry and loaded only and all of the
   * stored teams reachable from `refs` leaves exactly those keys added.
   */
  lemma CompletedWalkKeys(after: map<Uuid, Team>, cache: map<Uuid, Team>, repo: TeamStore,
                          refs: seq<EntityReference>)
    requires View(after, repo) == View(cache, repo) && Extends(after, cache)
    requires LoadedOnlyFrom(after, cache, View(cache, repo), refs) && LoadedAllFrom(after, View(cache, repo), refs)
    ensures after.Keys == cache.Keys + set id | id in View(cache, repo) && ReachesFrom(View(cache, repo), refs, id)
  {
  }

  /**
   * The team cache part-way through a walk that began with `cache` in front
   * of `repo`: lookups still see `view`, every earlier entry is kept, and the
   * keys gained are among the ids in `looked`, all of which are now cached.
   */
  ghost predicate WalkCache(after: map<Uuid, Team>, cache: map<Uuid, Team>, repo: TeamStore, view: TeamStore,
                            looked: set<Uuid>) {
    View(after, repo) == view && Extends(after, cache) && after.Keys <= cache.Keys + looked && looked <= after.Keys
  }

  /** The entry Climb pops first, the last of `start`, is stored and passes `test`. */
  ghost predicate FirstPasses(store: TeamStore, start: seq<EntityReference>, test: Test) {
    start != [] && start[|start| - 1].id in store && Holds(test, store[start[|start| - 1].id])
  }

  /**
   * Between pops of Climb: the walk invariant over `view`, the cache
   * bookkeeping, and, when the entry popped first passes, nothing popped yet.
   */
  ghost predicate ClimbState(after: map<Uuid, Team>, cache: map<Uuid, Team>, repo: TeamStore, view: TeamStore,
                             start: seq<EntityReference>, test: Test, stack: seq<EntityReference>, visited: set<Uuid>) {
    WalkCache(after, cache, repo, view, visited) && WalkInvariant(view, start, test, stack, visited) &&
    (FirstPasses(view, start, test) ==> stack == start && after == cache)
  }

  /** Equal non-empty sequences end in the same element. */
  lemma SameLast(a: seq<EntityReference>, b: seq<EntityReference>)
    requires a != []
    ensures a == b ==> b != [] && a[|a| - 1] == b[|b| - 1]
  {
  }

  lemma ClimbBegins(cache: map<Uuid, Team>, repo: TeamStore, start: seq<EntityReference>, test: Test)
    ensures ClimbState(cache, cache, repo, View(cache, repo), start, test, start, {})
  {
    WalkBegins(View(cache, repo), start, test);
  }

  /** The lookup of the top of the stack answers from `view`. */
  lemma ClimbLooksUp(after: map<Uuid, Team>, cache: map<Uuid, Team>, repo: TeamStore, view: TeamStore,
                     start: seq<EntityReference>, test: Test, stack: seq<EntityReference>, visited: set<Uuid>)
    requires ClimbState(after, cache, repo, view, start, test, stack, visited) && stack != []
    ensures LoadOnMiss(after, repo, stack[|stack| - 1].id).0 == Lookup(view, stack[|stack| - 1].id)
  {
  }

  /** A top that does not resolve: something `start` reaches is missing, and the first pop did not pass. */
  lemma ClimbThrows(after: map<Uuid, Team>, cache: map<Uuid, Team>, repo: TeamStore, view: TeamStore,
                    start: seq<EntityReference>, test: Test, stack: seq<EntityReference>, visited: set<Uuid>)
    requires ClimbState(after, cache, repo, view, start, test, stack, visited)
    requires stack != [] && stack[|stack| - 1].id !in view
    ensures !AllReachedResolve(view, start) && !FirstPasses(view, start, test)
    ensures LoadOnMiss(after, repo, stack[|stack| - 1].id).1 == after
  {
    var top := stack[|stack| - 1];
    WalkTop(view, start, test, stack, visited);
    SameLast(stack, start);
  }

  /** Between pops, every team cached since the walk began is reachable from `start`. */
  lemma ClimbLoadedOnly(after: map<Uuid, Team>, cache: map<Uuid, Team>, repo: TeamStore, view: TeamStore,
                        start: seq<EntityReference>, test: Test, stack: seq<EntityReference>, visited: set<Uuid>)
    requires ClimbState(after, cache, repo, view, start, test, stack, visited)
    ensures LoadedOnlyFrom(after, cache, view, start)
  {
  }

  /** A top that resolves and passes: the answer is true, and only reachable teams were cached. */
  lemma ClimbFinds(after: map<Uuid, Team>, cache: map<Uuid, Team>, repo: TeamStore, view: TeamStore,
                   start: seq<EntityReference>, test: Test, stack: seq<EntityReference>, visited: set<Uuid>)
    requires ClimbState(after, cache, repo, view, start, test, stack, visited)
    requires stack != [] && stack[|stack| - 1].id in view && Holds(test, view[stack[|stack| - 1].id])
    ensures SomeReached(view, start, test)
    ensures WalkCache(LoadOnMiss(after, repo, stack[|stack| - 1].id).1, cache, repo, view,
                      visited + {stack[|stack| - 1].id})
    ensures LoadedOnlyFrom(LoadOnMiss(after, repo, stack[|stack| - 1].id).1, cache, view, start)
    ensures FirstPasses(view, start, test) ==>
              LoadOnMiss(after, repo, stack[|stack| - 1].id).1.Keys <= cache.Keys + {start[|start| - 1].id}
  {
    var top := stack[|stack| - 1];
    WalkTop(view, start, test, stack, visited);
    SameLast(stack, start);
  }

  /** A top that resolves and fails: popping it and pushing its parents keeps the state. */
  lemma ClimbSteps(after: map<Uuid, Team>, cache: map<Uuid, Team>, repo: TeamStore, view: TeamStore,
                   start: seq<EntityReference>, test: Test, stack: seq<EntityReference>, visited: set<Uuid>)
    requires ClimbState(after, cache, repo, view, start, test, stack, visited)
    requires stack != [] && stack[|stack| - 1].id in view && !Holds(test, view[stack[|stack| - 1].id])
    ensures ClimbState(LoadOnMiss(after, repo, stack[|stack| - 1].id).1, cache, repo, view, start, test,
                       stack[..|stack| - 1] + Parents(view, stack[|stack| - 1].id), visited + {stack[|stack| - 1].id})
  {
    var top := stack[|stack| - 1];
    WalkSteps(view, start, test, stack, visited);
    SameLast(stack, start);
  }

  /** An emptied stack: every reachable team resolved, failed, and is cached. */
  lemma ClimbEnds(after: map<Uuid, Team>, cache: map<Uuid, Team>, repo: TeamStore, view: TeamStore,
                  start: seq<EntityReference>, test: Test, visited: set<Uuid>)
    requires ClimbState(after, cache, repo, view, start, test, [], visited)
    ensures AllReachedResolve(view, start) && !SomeReached(view, start, test) && !FirstPasses(view, start, test)
    ensures LoadedAllFrom(after, view, start) && LoadedOnlyFrom(after, cache, view, start)
  {
    WalkEnds(view, start, test, visited);
  }

  /** Looking one more entry up, and walking above it, covers the longer prefix. */
  lemma LoadedAllStep(earlier: map<Uuid, Team>, after: map<Uuid, Team>, store: TeamStore,
                      refs: seq<EntityReference>, i: nat)
    requires i < |refs| && LoadedAllFrom(earlier, store, refs[..i]) && earlier.Keys <= after.Keys
    requires refs[i].id in store ==> refs[i].id in after && LoadedAllFrom(after, store, Parents(store, refs[i].id))
    ensures LoadedAllFrom(after, store, refs[..i + 1])
  {
    forall x | x in store && ReachesFrom(store, refs[..i + 1], x)
      ensures x in after
    {
      ReachesFromStep(store, refs, i, x);
    }
  }

  /** What a walk above a stored entry loads is reachable from the whole list. */
  lemma LoadedOnlyStep(cache: map<Uuid, Team>, loaded: map<Uuid, Team>, after: map<Uuid, Team>, store: TeamStore,
                       refs: seq<EntityReference>, i: nat)
    requires i < |refs| && refs[i].id in store
    requires LoadedOnlyFrom(loaded, cache, store, refs)
    requires LoadedOnlyFrom(after, loaded, store, Parents(store, refs[i].id))
    ensures LoadedOnlyFrom(after, cache, store, refs)
  {
    forall id | id in after && id !in cache
      ensures ReachesFrom(store, refs, id)
    {
      if id !in loaded {
        ReachesFromThrough(store, refs, i, id);
      }
    }
  }

  // ---------------------------------------------------------------------------
  // The walks, over the team cache `cache` in front of the repository `repo`.
  // Each team lookup is the cache-first lookup of SubjectCache.GetTeam; the
  // cache as it stands when the walk returns is returned beside the answer.

  /**
   * The stack walk shared by IsInTeam and HasRole: pop a reference, look its
   * team up, succeed if the team passes `test`, otherwise push its parents.
   * A reference that does not resolve is dereferenced as null.
   */
  method Climb(cache: map<Uuid, Team>, repo: TeamStore, start: seq<EntityReference>, test: Test)
    returns (r: Outcome<bool>, after: map<Uuid, Team>)
    requires Acyclic(View(cache, repo)) || FirstPasses(View(cache, repo), start, test)
    ensures View(after, repo) == View(cache, repo) && Extends(after, cache)
    ensures LoadedOnlyFrom(after, cache, View(cache, repo), start)
    ensures r == Ok(true) ==> SomeReached(View(cache, repo), start, test)
    ensures r == Ok(false) ==>
              AllReachedResolve(View(cache, repo), start) && !SomeReached(View(cache, repo), start, test) &&
              LoadedAllFrom(after, View(cache, repo), start)
    ensures r.Thrown? ==> r.fault == NullPointer && !AllReachedResolve(View(cache, repo), start)
    ensures AllReachedResolve(View(cache, repo), start) ==> r == Ok(SomeReached(View(cache, repo), start, test))
    ensures FirstPasses(View(cache, repo), start, test) ==>
              r == Ok(true) && after.Keys <= cache.Keys + {start[|start| - 1].id}
  {
    ghost var view := View(cache, repo);
    ghost var ranked := Acyclic(view);
    ghost var rank: map<Uuid, nat> := if ranked then TheRank(view) else map[];
    ghost var visited: set<Uuid> := {};
    var stack := start;
    after := cache;
    ClimbBegins(cache, repo, start, test);
    while stack != []
      invariant ClimbState(after, cache, repo, view, start, test, stack, visited)
      invariant ranked ==> RankedBy(view, rank)
      invariant !ranked ==> FirstPasses(view, start, test)
      decreases if ranked then Weight(view, rank, stack) else 0
    {
      var top := stack[|stack| - 1];
      ClimbLooksUp(after, cache, repo, view, start, test, stack, visited);
      var found := LoadOnMiss(after, repo, top.id);
      if found.0.None? {
        ClimbThrows(after, cache, repo, view, start, test, stack, visited);
        ClimbLoadedOnly(after, cache, repo, view, start, test, stack, visited);
        return Thrown(NullPointer), after;
      }
      var team := found.0.value;
      if Holds(test, team) {
        ClimbFinds(after, cache, repo, view, start, test, stack, visited);
        return Ok(true), found.1;
      }
      if !ranked {
        SameLast(stack, start);
        assert false;
      }
      WeightPop(view, rank, stack);
      ClimbSteps(after, cache, repo, view, start, test, stack, visited);
      after := found.1;
      stack := stack[..|stack| - 1] + ListOrEmpty(team.parents);
      visited := visited + {top.id};
    }
    ClimbEnds(after, cache, repo, view, start, test, visited);
    return Ok(false), after;
  }

  /**
   * The default roles of the given teams and of every team above them,
   * without duplicates. References that do not resolve are skipped; a
   * resolved team whose default-role list is null throws.
   */
  method GatherRoles(cache: map<Uuid, Team>, repo: TeamStore, teams: Option<seq<EntityReference>>)
    returns (r: Outcome<seq<EntityReference>>, after: map<Uuid, Team>)
    requires ListOrEmpty(teams) == [] || Acyclic(View(cache, repo))
    ensures View(after, repo) == View(cache, repo) && Extends(after, cache)
    ensures LoadedOnlyFrom(after, cache, View(cache, repo), ListOrEmpty(teams))
    ensures r.Thrown? <==> SomeReached(View(cache, repo), ListOrEmpty(teams), LacksDefaultRoles)
    ensures r.Thrown? ==> r.fault == NullPointer
    ensures r.Ok? ==> NoDuplicates(r.value) && LoadedAllFrom(after, View(cache, repo), ListOrEmpty(teams))
    ensures r.Ok? ==> forall e :: e in r.value <==> SomeReached(View(cache, repo), ListOrEmpty(teams), Grants(e))
    decreases if Acyclic(View(cache, repo)) then Level(View(cache, repo), TheRank(View(cache, repo)), ListOrEmpty(teams)) else 0
  {
    ghost var view := View(cache, repo);
    var refs := ListOrEmpty(teams);
    var roles: seq<EntityReference> := [];
    after := cache;
    for i := 0 to |refs|
      invariant View(after, repo) == view && Extends(after, cache)
      invariant LoadedOnlyFrom(after, cache, view, refs)
      invariant LoadedAllFrom(after, view, refs[..i])
      invariant !SomeReached(view, refs[..i], LacksDefaultRoles)
      invariant forall e :: e in roles <==> SomeReached(view, refs[..i], Grants(e))
    {
      var ref := refs[i];
      ReachesFromMember(view, refs, i);
      ghost var earlier := after;
      var found := LoadOnMiss(after, repo, ref.id);
      after := found.1;
      SomeReachedStep(view, refs, i, LacksDefaultRoles);
      if found.0.None? {
        LoadedAllStep(earlier, after, view, refs, i);
        GrantsSkip(view, refs, i, roles);
        continue;
      }
      var team := found.0.value;
      if team.defaultRoles.None? {
        SomeReachedPrefix(view, refs, i + 1, LacksDefaultRoles);
        return Thrown(NullPointer), after;
      }
      LevelAbove(view, TheRank(view), refs, i);
      ParentsBelow(view, TheRank(view), ref.id);
      ghost var loaded := after;
      var inherited;
      inherited, after := GatherRoles(after, repo, team.parents);
      LoadedOnlyStep(cache, loaded, after, view, refs, i);
      if inherited.Thrown? {
        SomeReachedPrefix(view, refs, i + 1, LacksDefaultRoles);
        return Thrown(inherited.fault), after;
      }
      LoadedAllStep(earlier, after, view, refs, i);
      GrantsStep(view, refs, i, roles, team.defaultRoles.value, inherited.value);
      roles := roles + team.defaultRoles.value + inherited.value;
    }
    assert refs[..|refs|] == refs;
    var unique := Distinct(roles);
    DistinctSameElements(roles);
    return Ok(unique), after;
  }

  // ---------------------------------------------------------------------------
  // The cache object

  class SubjectCache {
    var initialized: bool
    var userCache: map<string, User>
    var userCacheById: map<Uuid, User>
    var teamCache: map<Uuid, Team>

    /** The user and team repositories, as partial maps. */
    const usersByName: map<string, User>
    const usersById: map<Uuid, User>
    const teamRepo: TeamStore

    /** The users lookups by name see: a cached entry, stale or not, shadows the repository's. */
    ghost function UserView(): map<string, User>
      reads this
    {
      View(userCache, usersByName)
    }

    /** The users lookups by id see. */
    ghost function UserByIdView(): map<Uuid, User>
      reads this
    {
      View(userCacheById, usersById)
    }

    /** The hierarchy the team lookups, and so the walks, see. */
    ghost function TeamView(): TeamStore
      reads this
    {
      View(teamCache, teamRepo)
    }

    /** The state before the first initialization, over the given repositories. */
    constructor (teams: TeamStore, byName: map<string, User>, byId: map<Uuid, User>)
      ensures !initialized
      ensures userCache == map[] && userCacheById == map[] && teamCache == map[]
      ensures teamRepo == teams && usersByName == byName && usersById == byId
    {
      initialized := false;
      userCache, userCacheById, teamCache := map[], map[], map[];
      teamRepo, usersByName, usersById := teams, byName, byId;
    }

    /**
     * Build fresh, empty caches unless already initialized, after which the
     * lookups see the repositories; a second call changes nothing.
     */
    method Initialize()
      modifies this
      ensures initialized
      ensures old(initialized) ==>
                userCache == old(userCache) && userCacheById == old(userCacheById) && teamCache == old(teamCache)
      ensures !old(initialized) ==> userCache == map[] && userCacheById == map[] && teamCache == map[]
      ensures !old(initialized) ==> UserView() == usersByName && UserByIdView() == usersById && TeamView() == teamRepo
    {
      if !initialized {
        userCache, userCacheById, teamCache := map[], map[], map[];
        initialized := true;
      }
    }

    /**
     * Empty the by-name user cache and the team cache and clear the flag, so
     * that those lookups see the repositories again; the by-id user cache stays.
     */
    method CleanUp()
      modifies this`userCache, this`teamCache, this`initialized
      ensures !initialized
      ensures userCache == map[] && teamCache == map[] && userCacheById == old(userCacheById)
      ensures UserView() == usersByName && TeamView() == teamRepo
    {
      userCache := map[];
      teamCache := map[];
      initialized := false;
    }

    /** Drop the user's cached entry: the next lookup of that name reads the repository. */
    method InvalidateUser(userName: string)
      modifies this`userCache
      ensures userCache == old(userCache) - {userName}
      ensures Lookup(UserView(), userName) == Lookup(usersByName, userName)
      ensures forall name :: name != userName ==> Lookup(UserView(), name) == Lookup(old(UserView()), name)
    {
      userCache := userCache - {userName};
    }

    /** Drop the team's cached entry: the next lookup of that id reads the repository. */
    method InvalidateTeam(teamId: Uuid)
      modifies this`teamCache
      ensures teamCache == old(teamCache) - {teamId}
      ensures Lookup(TeamView(), teamId) == Lookup(teamRepo, teamId)
      ensures forall id :: id != teamId ==> Lookup(TeamView(), id) == Lookup(old(TeamView()), id)
    {
      teamCache := teamCache - {teamId};
    }

    /** The user of that name through the cache, or EntityNotFound. */
    method GetUser(userName: string) returns (r: Outcome<User>)
      modifies this`userCache
      ensures UserView() == old(UserView()) && Extends(userCache, old(userCache))
      ensures r == if userName in UserView() then Ok(UserView()[userName]) else Thrown(EntityNotFound)
      ensures userCache.Keys == old(userCache).Keys + (if userName in UserView() then {userName} else {})
      ensures Coherent(old(userCache), usersByName) ==> Coherent(userCache, usersByName)
    {
      var res := LoadOnMiss(userCache, usersByName, userName);
      if Coherent(userCache, usersByName) {
        LoadOnMissCoherent(userCache, usersByName, userName);
      }
      userCache := res.1;
      r := if res.0.Some? then Ok(res.0.value) else Thrown(EntityNotFound);
    }

    /** The user of that id through the id-keyed cache, or EntityNotFound. */
    method GetUserById(userId: Uuid) returns (r: Outcome<User>)
      modifies this`userCacheById
      ensures UserByIdView() == old(UserByIdView()) && Extends(userCacheById, old(userCacheById))
      ensures r == if userId in UserByIdView() then Ok(UserByIdView()[userId]) else Thrown(EntityNotFound)
      ensures userCacheById.Keys == old(userCacheById).Keys + (if userId in UserByIdView() then {userId} else {})
      ensures Coherent(old(userCacheById), usersById) ==> Coherent(userCacheById, usersById)
    {
      var res := LoadOnMiss(userCacheById, usersById, userId);
      if Coherent(userCacheById, usersById) {
        LoadOnMissCoherent(userCacheById, usersById, userId);
      }
      userCacheById := res.1;
      r := if res.0.Some? then Ok(res.0.value) else Thrown(EntityNotFound);
    }

    /** The team of that id through the cache; None (null) when neither the cache nor the repository has one. */
    method GetTeam(teamId: Uuid) returns (t: Option<Team>)
      modifies this`teamCache
      ensures TeamView() == old(TeamView()) && Extends(teamCache, old(teamCache))
      ensures t == Lookup(TeamView(), teamId)
      ensures teamCache.Keys == old(teamCache).Keys + (if teamId in TeamView() then {teamId} else {})
      ensures Coherent(old(teamCache), teamRepo) ==> Coherent(teamCache, teamRepo)
    {
      var res := LoadOnMiss(teamCache, teamRepo, teamId);
      if Coherent(teamCache, teamRepo) {
        LoadOnMissCoherent(teamCache, teamRepo, teamId);
      }
      teamCache := res.1;
      t := res.0;
    }

    /** Whether `team`, or a team above it in the hierarchy, is named `parentTeam`. */
    method IsInTeam(parentTeam: string, team: EntityReference) returns (r: Outcome<bool>)
      requires Acyclic(TeamView()) || (team.id in TeamView() && TeamView()[team.id].name == parentTeam)
      modifies this`teamCache
      ensures TeamView() == old(TeamView()) && Extends(teamCache, old(teamCache))
      ensures LoadedOnlyFrom(teamCache, old(teamCache), TeamView(), [team])
      ensures team.id in TeamView() && TeamView()[team.id].name == parentTeam ==>
                r == Ok(true) && teamCache.Keys <= old(teamCache).Keys + {team.id}
      ensures AllReachedResolve(TeamView(), [team]) ==> r == Ok(SomeReached(TeamView(), [team], NamedAs(parentTeam)))
      ensures r == Ok(true) ==> SomeReached(TeamView(), [team], NamedAs(parentTeam))
      ensures r == Ok(false) ==>
                AllReachedResolve(TeamView(), [team]) && !SomeReached(TeamView(), [team], NamedAs(parentTeam)) &&
                LoadedAllFrom(teamCache, TeamView(), [team])
      ensures r == Ok(false) ==>
                teamCache.Keys == old(teamCache).Keys + set id | id in TeamView() && ReachesFrom(TeamView(), [team], id)
      ensures r.Thrown? ==> r.fault == NullPointer && !AllReachedResolve(TeamView(), [team])
    {
      r, teamCache := Climb(teamCache, teamRepo, [team], NamedAs(parentTeam));
      if r == Ok(false) {
        CompletedWalkKeys(teamCache, old(teamCache), teamRepo, [team]);
      }
    }

    /**
     * Whether the user holds a role named `role`: directly, or as a default
     * role of one of the user's teams or of a team above them.
     */
    method HasRole(user: User, role: string) returns (r: Outcome<bool>)
      requires ListHasRole(user.roles, role) || Acyclic(TeamView())
      modifies this`teamCache
      ensures TeamView() == old(TeamView()) && Extends(teamCache, old(teamCache))
      ensures LoadedOnlyFrom(teamCache, old(teamCache), TeamView(), ListOrEmpty(user.teams))
      ensures ListHasRole(user.roles, role) ==> r == Ok(true) && teamCache == old(teamCache)
      ensures AllReachedResolve(TeamView(), ListOrEmpty(user.teams)) ==>
                r == Ok(ListHasRole(user.roles, role) || SomeReached(TeamView(), ListOrEmpty(user.teams), GrantsRole(role)))
      ensures r == Ok(true) ==>
                ListHasRole(user.roles, role) || SomeReached(TeamView(), ListOrEmpty(user.teams), GrantsRole(role))
      ensures r == Ok(false) ==>
                !ListHasRole(user.roles, role) && AllReachedResolve(TeamView(), ListOrEmpty(user.teams)) &&
                !SomeReached(TeamView(), ListOrEmpty(user.teams), GrantsRole(role)) &&
                LoadedAllFrom(teamCache, TeamView(), ListOrEmpty(user.teams))
      ensures r == Ok(false) ==>
                teamCache.Keys ==
                old(teamCache).Keys + set id | id in TeamView() && ReachesFrom(TeamView(), ListOrEmpty(user.teams), id)
      ensures r.Thrown? ==>
                r.fault == NullPointer && !ListHasRole(user.roles, role) &&
                !AllReachedResolve(TeamView(), ListOrEmpty(user.teams))
    {
      if ListHasRole(user.roles, role) {
        return Ok(true);
      }
      r, teamCache := Climb(teamCache, teamRepo, ListOrEmpty(user.teams), GrantsRole(role));
      if r == Ok(false) {
        CompletedWalkKeys(teamCache, old(teamCache), teamRepo, ListOrEmpty(user.teams));
      }
    }

    /** GatherRoles over the team cache. */
    method GetRolesForTeams(teams: Option<seq<EntityReference>>) returns (r: Outcome<seq<EntityReference>>)
      requires ListOrEmpty(teams) == [] || Acyclic(TeamView())
      modifies this`teamCache
      ensures TeamView() == old(TeamView()) && Extends(teamCache, old(teamCache))
      ensures LoadedOnlyFrom(teamCache, old(teamCache), TeamView(), ListOrEmpty(teams))
      ensures r.Thrown? <==> SomeReached(TeamView(), ListOrEmpty(teams), LacksDefaultRoles)
      ensures r.Thrown? ==> r.fault == NullPointer
      ensures r.Ok? ==> NoDuplicates(r.value) && LoadedAllFrom(teamCache, TeamView(), ListOrEmpty(teams))
      ensures r.Ok? ==> forall e :: e in r.value <==> SomeReached(TeamView(), ListOrEmpty(teams), Grants(e))
      ensures r.Ok? ==>
                teamCache.Keys == old(teamCache).Keys + set id | id in TeamView() && ReachesFrom(TeamView(), ListOrEmpty(teams), id)
    {
      r, teamCache := GatherRoles(teamCache, teamRepo, teams);
      if r.Ok? {
        CompletedWalkKeys(teamCache, old(teamCache), teamRepo, ListOrEmpty(teams));
      }
    }
  }
}
