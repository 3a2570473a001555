# OpenMetadata subject cache and MAX metric, modelled in Dafny

This project models two small pieces of OpenMetadata.

**The subject cache of the policy evaluator** (`SubjectCache.java`). The service keeps three caches:
users by name, users by id, and teams by id. They sit in front of the user and team repositories and
load an entry on a miss. Access-control policies ask three questions through them:

- is a team, or a team above it, named X (`isInTeam`);
- does a user hold role R, either directly or as a default role of one of the user's teams or a team
  above it (`hasRole`);
- which default roles do a list of teams and all their ancestors pass down (`getRolesForTeams`).

The model has these parts:

- The repositories are partial maps. The caches are `map` fields of a `SubjectCache` class.
- Lookups are cache-first. What a lookup sees is the `View` of a cache over its repository: a cached
  entry shadows the repository's, even when it is stale. A stale entry is one that differs from the
  repository's, or one whose key the repository no longer has.
- No invariant ties the caches to the repositories, so every contract holds for stale caches too.
  `InvalidateUser`, `InvalidateTeam` and `CleanUp` make the affected lookups see the repository again.
  `Coherent` says a cache holds no stale entry; lookups preserve it, and then the view is the
  repository itself (`CoherentView`).
- Null list fields are `Option`s and are read through `ListOrEmpty`, as the source's
  `listOrEmpty` does.
- `getTeam` returns `None` on a miss.
- The two stack walks are one method, `Climb`. It keeps the source's explicit stack, with the top at
  the end of a `seq`. `IsInTeam` and `HasRole` call it with different per-team tests.
  `getRolesForTeams` is the recursive method `GatherRoles`. Both walks take the team cache as a
  value and return it as it stands afterwards; the class methods store it back.
- Reachability is stated on its own terms, in module `Teams`: `Reaches` holds when there is a chain
  of parent links. It does not depend on how the walks are written.
- The walks state which teams they cache. Every team they add is reachable from the input. A walk
  that completes (false from `Climb`, a role list from `GatherRoles`) has added exactly the resolved
  reachable teams.

The source keeps no visited set. So on a hierarchy with a cycle reachable from the input, the stack
walks may loop forever and the recursion of `getRolesForTeams` may overflow the call stack. They can
still return first: true when a passing team is popped before the cycle repeats; a null dereference
in the stack walks, when a popped id does not resolve and `getTeam` returns null; or the null
dereference of `addAll(null)` in `getRolesForTeams`. The model needs a termination measure, so past
their early exits the walks require `Acyclic`: a ranking of the teams exists that strictly
decreases from every team to its stored parents. No ranking is needed when `hasRole` finds a direct
role, when the first team `isInTeam` pops has the name (in general, when `Climb`'s first pop
passes), or when `getRolesForTeams` is given a null or empty list. A ranked hierarchy has no team that is its own
ancestor (`NoTeamIsItsOwnAncestor`). The converse, that every hierarchy without cycles has a
ranking, is not proved here. The stack walk terminates because `Weight` drops on every pop. The
recursion terminates because `Level` decreases.

**The MAX profiler metric** (`max.py`). The model covers:

- the choice of SQL expression by column type (`Fn`);
- the two SQL renderings of `MaxFn`, for Impala and for every other dialect (`Default`);
- the dataframe path (`DfFn`), including the Python exceptions it raises on a missing or empty
  list of frames.

## Model

| member | source | states |
|---|---|---|
| `Caching.LoadOnMiss` | openmetadata-service/src/main/java/org/openmetadata/service/security/policyevaluator/SubjectCache.java:199-224 | A lookup answers from the view: a cached entry, stale or not, wins, and only on a miss is the repository read. The view is unchanged. Earlier entries are kept. Exactly the key is added, when the view has it. |
| `Caching.CoherentView` | openmetadata-service/src/main/java/org/openmetadata/service/security/policyevaluator/SubjectCache.java:120-126 | Once no cached entry is stale, the view is the repository itself. |
| `Teams.AnyMatch` | openmetadata-service/src/main/java/org/openmetadata/service/security/policyevaluator/SubjectCache.java:161 | The `anyMatch` over role references is true iff some reference has the expected name. |
| `Teams.ListHasRole` | openmetadata-service/src/main/java/org/openmetadata/service/security/policyevaluator/SubjectCache.java:160-162 | The private `hasRole` is false for a null list. Otherwise it is true iff some listed role has the expected name. |
| `Teams.SomeReachedSingle` | openmetadata-service/src/main/java/org/openmetadata/service/security/policyevaluator/SubjectCache.java:189-194 | A reference contributes to a search only when it resolves. It then contributes its own team and everything reachable from that team's parents; a reference that does not resolve contributes nothing. |
| `Teams.SomeReachedConcat` | openmetadata-service/src/main/java/org/openmetadata/service/security/policyevaluator/SubjectCache.java:189 | Searching from a concatenation of reference lists is searching from either list. |
| `Teams.ReachesFromPop` | openmetadata-service/src/main/java/org/openmetadata/service/security/policyevaluator/SubjectCache.java:132-137 | Popping a resolved team and pushing its parents loses nothing reachable except the popped team itself. |
| `Teams.WalkSteps` | openmetadata-service/src/main/java/org/openmetadata/service/security/policyevaluator/SubjectCache.java:150-155 | One pop-and-push step of the walk keeps its invariant: stack entries are reachable from the start, every visited team is reachable, resolved and failed the test, and everything reachable was visited or is reachable from the stack. |
| `Teams.WeightPop` | openmetadata-service/src/main/java/org/openmetadata/service/security/policyevaluator/SubjectCache.java:132-138 | On a ranked hierarchy each pop-and-push step strictly lowers the stack's weight, so the loop ends. |
| `Teams.NoTeamIsItsOwnAncestor` | openmetadata-service/src/main/java/org/openmetadata/service/security/policyevaluator/SubjectCache.java:129-140 | A ranked hierarchy has no chain of one or more parent links from a team back to itself. |
| `Teams.LevelAbove` | openmetadata-service/src/main/java/org/openmetadata/service/security/policyevaluator/SubjectCache.java:193 | Every resolved reference of a list ranks below the list's level. Together with `Teams.ParentsBelow` this makes the recursive call on a team's parents decrease. |
| `Teams.ParentsBelow` | openmetadata-service/src/main/java/org/openmetadata/service/security/policyevaluator/SubjectCache.java:193 | The level of a team's parent list is at most the team's rank. |
| `Teams.Distinct` | openmetadata-service/src/main/java/org/openmetadata/service/security/policyevaluator/SubjectCache.java:196 | `distinct()` returns a duplicate-free list with exactly the elements of its input, and no longer than it. |
| `Teams.DistinctSameElements` | openmetadata-service/src/main/java/org/openmetadata/service/security/policyevaluator/SubjectCache.java:196 | An element is in the `distinct()` list iff it is in the input. |
| `PolicyEvaluator.Climb` | openmetadata-service/src/main/java/org/openmetadata/service/security/policyevaluator/SubjectCache.java:130-139 | The stack walk over a team cache. Lookups keep the view, and every team cached on the way is reachable from the start. True means a reachable team passes the test. False means every reachable team resolves, none passes, and all of them are now cached. A null dereference means some reachable id does not resolve. If all reachable ids resolve, the result is exactly whether one passes. The first team popped decides at once when it passes: the answer is true and at most that team was added to the cache. |
| `PolicyEvaluator.GatherRoles` | openmetadata-service/src/main/java/org/openmetadata/service/security/policyevaluator/SubjectCache.java:187-197 | Throws exactly when a resolved reachable team has a null default-role list. Otherwise it returns a duplicate-free list of exactly the default roles of the resolved teams reachable from the input, and all of those teams are now cached. Unresolved references are skipped; a null or empty input gives an empty list. Every team cached on the way is reachable from the input. |
| `PolicyEvaluator.SubjectCache.constructor` | openmetadata-service/src/main/java/org/openmetadata/service/security/policyevaluator/SubjectCache.java:46-54 | The starting state: not initialized, all caches empty, over the given repositories. |
| `PolicyEvaluator.SubjectCache.Initialize` | openmetadata-service/src/main/java/org/openmetadata/service/security/policyevaluator/SubjectCache.java:57-78 | When already initialized, all caches are unchanged. Otherwise all three caches are rebuilt empty, so every lookup sees the repositories. Either way the flag ends up set. |
| `PolicyEvaluator.SubjectCache.CleanUp` | openmetadata-service/src/main/java/org/openmetadata/service/security/policyevaluator/SubjectCache.java:164-169 | Empties the by-name user cache and the team cache and clears the flag, so those lookups see the repositories again. The by-id user cache is not in its frame, so it stays unchanged. |
| `PolicyEvaluator.SubjectCache.InvalidateUser` | openmetadata-service/src/main/java/org/openmetadata/service/security/policyevaluator/SubjectCache.java:171-177 | Removes exactly the given name from the by-name user cache. A lookup of that name then sees the repository's user; every other name looks up as before. |
| `PolicyEvaluator.SubjectCache.InvalidateTeam` | openmetadata-service/src/main/java/org/openmetadata/service/security/policyevaluator/SubjectCache.java:179-185 | Removes exactly the given id from the team cache. A lookup of that id then sees the repository's team; every other id looks up as before. |
| `PolicyEvaluator.SubjectCache.GetUser` | openmetadata-service/src/main/java/org/openmetadata/service/security/policyevaluator/SubjectCache.java:100-106 | Returns the user the by-name view holds, which is a cached one when present, or EntityNotFound. The view is unchanged and only that name may be added to the cache. A coherent cache stays coherent. |
| `PolicyEvaluator.SubjectCache.GetUserById` | openmetadata-service/src/main/java/org/openmetadata/service/security/policyevaluator/SubjectCache.java:112-118 | Returns the user the by-id view holds, or EntityNotFound. The view is unchanged and only that id may be added to the id-keyed cache. A coherent cache stays coherent. |
| `PolicyEvaluator.SubjectCache.GetTeam` | openmetadata-service/src/main/java/org/openmetadata/service/security/policyevaluator/SubjectCache.java:120-126 | Returns the team the view holds, which is a cached one when present, or null (None) on a miss. The view is unchanged, cached teams stay cached, and exactly that id is added when the view has it. |
| `PolicyEvaluator.SubjectCache.IsInTeam` | openmetadata-service/src/main/java/org/openmetadata/service/security/policyevaluator/SubjectCache.java:129-140 | True as soon as the starting team itself has the name, and then no parent is looked up: at most the starting team is added to the cache. False only when every reachable team resolves and none has the name; the team cache then gained exactly the reachable teams. If every reachable team resolves, the result is whether some team at or above the start has that name. The null dereference happens only when some reachable id does not resolve. Only reachable teams are cached. |
| `PolicyEvaluator.SubjectCache.HasRole` | openmetadata-service/src/main/java/org/openmetadata/service/security/policyevaluator/SubjectCache.java:143-158 | A matching direct role gives true without touching the team cache. False only when no direct role matches, every reachable team resolves and none grants the role; the team cache then gained exactly the reachable teams. If every reachable team resolves, the result is: a direct role matches, or a team at or above one of the user's teams has a default role with that name. Only reachable teams are cached. |
| `PolicyEvaluator.SubjectCache.GetRolesForTeams` | openmetadata-service/src/main/java/org/openmetadata/service/security/policyevaluator/SubjectCache.java:187-197 | `GatherRoles` over the team cache: the same outcome, and on success the team cache gained exactly the resolved teams reachable from the input. |
| `MaxMetric.Name` | ingestion/src/metadata/profiler/metrics/static/max.py:56-58 | The metric is named "max". |
| `MaxMetric.DefaultMaxSql` | ingestion/src/metadata/profiler/metrics/static/max.py:37-40 | The default rendering is "MAX(", then the compiled argument, then ")". |
| `MaxMetric.ImpalaMaxSql` | ingestion/src/metadata/profiler/metrics/static/max.py:43-46 | The Impala rendering has length 3·\|c\|+37. The compiled argument appears at three fixed offsets, between the fixed texts of the NaN and infinity guard. |
| `MaxMetric.CompileMaxFn` | ingestion/src/metadata/profiler/metrics/static/max.py:37-46 | Every dialect renders a MAX(...) call. The Impala form is the one of length 3·\|c\|+37. |
| `MaxMetric.CompileMaxFnInjective` | ingestion/src/metadata/profiler/metrics/static/max.py:37-46 | The compiled argument is determined by the rendered text, in both dialects. |
| `MaxMetric.Fn` | ingestion/src/metadata/profiler/metrics/static/max.py:60-67 | A concatenable column gives MaxFn(LenFn(column)), ahead of the other checks. Otherwise a quantifiable or date-time column gives MaxFn(column) and any other column gives None. An expression is produced iff one of the three predicates holds. |
| `MaxMetric.Render` | ingestion/src/metadata/profiler/metrics/static/max.py:37-46 | A MaxFn goes to its dialect's hook: a MAX(...) call around the compiled argument, whose Impala form is the one of length 3·\|c\|+37. Every other expression is left to the SQL compiler unchanged. |
| `MaxMetric.FnRendersLength` | ingestion/src/metadata/profiler/metrics/static/max.py:63-64 | For a concatenable column, the default dialect renders MAX around the compiled LenFn of the column. |
| `MaxMetric.PyMax` | ingestion/src/metadata/profiler/metrics/static/max.py:72 | Python's `max` raises ValueError on an empty sequence. Otherwise it returns an element that is at least every element. |
| `MaxMetric.DfFn` | ingestion/src/metadata/profiler/metrics/static/max.py:69-73 | 0 for a column that is neither quantifiable nor date-time, whether or not it is concatenable. For the other columns: TypeError for a missing frame list, ValueError for an empty one, and otherwise a value that is at least every frame's maximum and equal to one of them. |
| `MaxMetric.ConcatenableOnlyPathsDiffer` | ingestion/src/metadata/profiler/metrics/static/max.py:61-73 | A column that is only concatenable gets an SQL MAX expression but 0 on the dataframe path. |

## Left out

- Cache size limits (1000 entries) and the 3-minute expiry: they depend on time and on the Guava library. In the model an entry leaves a cache only through invalidation, cleanup or re-initialization.
- Writes to the repositories, their database access and the field lists passed to them. The repositories are maps given to the constructor and do not change. A stale cache therefore appears only as an arbitrary starting cache whose entries differ from the repositories'. The contracts allow such caches, since lookups go through the cache-first view.
- Logging; the `volatile` flag and every other concurrency concern.
- The singleton `INSTANCE`, `getInstance`, and the null caches before the first `initialize`: the model is one object whose caches start out empty. So calling `cleanUp` or a lookup before the first `initialize` gives no null-pointer failure in the model.
- `getSubjectContext` (both overloads): it does the same cache lookups as GetUser and GetUserById but returns the `SubjectContext` wrapper. `SubjectContext` is not part of this model, so each cache holds the user it wraps.
- `getUserById(String)`: it only parses the string with `UUID.fromString`. Ids are plain integers here.
- The `catch` blocks of `invalidateUser`/`invalidateTeam`: Guava's invalidate fails only on a null key, and keys are never null here.
- Null team names and null entity ids: names and ids are never null in the model.
- Object equality of `EntityReference`: a reference is only its id and its name, so the model compares references, including in `distinct()`, on those two fields.
- PolicyEvaluator.SubjectCache.IsInTeam: unless the starting team itself has the name, requires the whole hierarchy seen through the cache to be ranked (`Acyclic`). The source needs no ranking; on a reachable cycle it may run forever or still return, and the model does not describe that behaviour. When the reachable part holds both a team with the name and an id that does not resolve, the contract allows true or the null dereference, as for Climb.
- PolicyEvaluator.SubjectCache.HasRole: unless a direct role matches, requires a ranked hierarchy, for the same reason as IsInTeam. When no direct role matches and the reachable part holds both a team granting the role and an id that does not resolve, the contract allows true or the null dereference, as for Climb.
- PolicyEvaluator.SubjectCache.GetRolesForTeams: unless the list is null or empty, requires a ranked hierarchy (on a reachable cycle the source may recurse until the stack overflows, or throw first on a null default-role list); it also does not state the order of the returned roles.
- PolicyEvaluator.Climb: unless the first team popped passes, requires a ranked hierarchy, as above. When the reachable part holds both a passing team and an id that does not resolve, the contract allows true or the null dereference. It does not say which one the source's depth-first order hits first.
- PolicyEvaluator.GatherRoles: unless the list is null or empty, requires a ranked hierarchy and does not state the order of the returned roles, as for GetRolesForTeams.
- Teams.Distinct: does not state that first occurrences keep their order, although the body keeps it.
- Teams.NoTeamIsItsOwnAncestor: only the direction "ranked implies no cycle" is proved. That every hierarchy without cycles has a ranking is not proved, so the ranking requirement is not shown to exclude only cyclic hierarchies.
- The `@_label` decorator on `fn`: it lives in the metrics core, which is not part of this model.
- The SQL compiler's rendering of columns and of `LenFn`: it is a parameter (`process`) of `Render`. `is_concatenable`, `is_quantifiable` and `is_date_time` are not part of this model and are uninterpreted booleans.
- Pandas: each frame's `df[name].max()` is given as one integer per frame. NaN, null and floating-point values, and a missing column (KeyError), are not modelled.
- The `MaxFn.name` and `inherit_cache` class attributes, SQLAlchemy's registration machinery for `@compiles`, and how a dialect is named.
- The test-suite details page (`TestSuiteDetailsPage.component.tsx`) and the automation route (`run_automation.py`): user-interface and HTTP plumbing with no logic of their own to model.
