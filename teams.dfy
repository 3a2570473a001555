/**
 * Users, teams and entity references as the subject cache sees them, and the
 * team hierarchy they form: each team names its parent teams, and a team's
 * default roles are inherited by every member of the team and of its
 * descendants.
 */
module Teams {
  import opened Options

  type Uuid = int

  /** A reference to another entity (a team, a role) by id and name. */
  datatype EntityReference = EntityReference(id: Uuid, name: string)

  /**
   * A team with the fields the cache loads ("defaultRoles, policies, parents";
   * policies play no part here). None stands for a list field left null.
   */
  datatype Team = Team(name: string, parents: Option<seq<EntityReference>>, defaultRoles: Option<seq<EntityReference>>)

  /** A user with the fields the cache loads ("roles, teams, isAdmin"; isAdmin plays no part here). */
  datatype User = User(name: string, id: Uuid, roles: Option<seq<EntityReference>>, teams: Option<seq<EntityReference>>)

  /** The team repository, as a partial map from team id to team. */
  type TeamStore = map<Uuid, Team>

  /** A null list reads as the empty list. */
  function ListOrEmpty<T>(list: Option<seq<T>>): seq<T> {
    match list
    case None => []
    case Some(s) => s
  }

  // ---------------------------------------------------------------------------
  // Role lookup in a list of references

  /** Whether some reference in `refs` carries the name `name`, scanning from the front. */
  function AnyMatch(refs: seq<EntityReference>, name: string): (b: bool)
    ensures b <==> exists i :: 0 <= i < |refs| && refs[i].name == name
  {
    if refs == [] then false
    else if refs[0].name == name then true
    else
      var rest := AnyMatch(refs[1..], name);
      assert rest ==> exists i :: 0 < i < |refs| && refs[i].name == name by {
        if rest {
          var j :| 0 <= j < |refs[1..]| && refs[1..][j].name == name;
          assert refs[j + 1] == refs[1..][j];
        }
      }
      assert (exists i :: 0 < i < |refs| && refs[i].name == name) ==> rest by {
        if exists i :: 0 < i < |refs| && refs[i].name == name {
          var i :| 0 < i < |refs| && refs[i].name == name;
          assert refs[1..][i - 1] == refs[i];
        }
      }
      rest
  }

  /** Whether a possibly-null list of role references holds a role named `role`. */
  function ListHasRole(roles: Option<seq<EntityReference>>, role: string): (b: bool)
    ensures roles.None? ==> !b
    ensures b <==> exists e :: e in ListOrEmpty(roles) && e.name == role
  {
    AnyMatch(ListOrEmpty(roles), role)
  }

  // ---------------------------------------------------------------------------
  // The hierarchy: links, chains, reachability

  /** The parents of a stored team, a null list read as empty. */
  function Parents(store: TeamStore, id: Uuid): seq<EntityReference>
    requires id in store
  {
    ListOrEmpty(store[id].parents)
  }

  /** `a` resolves to a team and `b` is the id of one of its parents. */
  ghost predicate Link(store: TeamStore, a: Uuid, b: Uuid) {
    a in store && exists k :: 0 <= k < |Parents(store, a)| && Parents(store, a)[k].id == b
  }

  /**
   * A non-empty path of ids, each linked to the next. Every id but the last
   * resolves; the last one need not.
   */
  ghost predicate IsChain(store: TeamStore, path: seq<Uuid>) {
    |path| > 0 && forall i :: 0 <= i < |path| - 1 ==> Link(store, path[i], path[i + 1])
  }

  /** `to` is `from` or one of its ancestors, following zero or more parent links. */
  ghost predicate Reaches(store: TeamStore, from: Uuid, to: Uuid) {
    exists path :: IsChain(store, path) && path[0] == from && path[|path| - 1] == to
  }

  /** `x` is reachable from one of the references in `refs`. */
  ghost predicate ReachesFrom(store: TeamStore, refs: seq<EntityReference>, x: Uuid) {
    exists i :: 0 <= i < |refs| && Reaches(store, refs[i].id, x)
  }

  /** Every id reachable from `refs` resolves to a stored team. */
  ghost predicate AllReachedResolve(store: TeamStore, refs: seq<EntityReference>) {
    forall x :: ReachesFrom(store, refs, x) ==> x in store
  }

  /** The questions asked of a single team while walking the hierarchy. */
  datatype Test =
    | NamedAs(name: string)              // the team has this name
    | GrantsRole(role: string)           // a default role of the team has this name
    | LacksDefaultRoles                  // the team's default-role list is null
    | Grants(roleRef: EntityReference)   // this reference is one of the team's default roles

  predicate Holds(test: Test, team: Team) {
    match test
    case NamedAs(n) => team.name == n
    case GrantsRole(r) => ListHasRole(team.defaultRoles, r)
    case LacksDefaultRoles => team.defaultRoles.None?
    case Grants(e) => e in ListOrEmpty(team.defaultRoles)
  }

  /** Some stored team reachable from `refs` passes `test`. */
  ghost predicate SomeReached(store: TeamStore, refs: seq<EntityReference>, test: Test) {
    exists x :: ReachesFrom(store, refs, x) && x in store && Holds(test, store[x])
  }

  lemma ReachesRefl(store: TeamStore, a: Uuid)
    ensures Reaches(store, a, a)
  {
    assert IsChain(store, [a]);
  }

  /** A chain from a parent of `a` extends to a chain from `a`. */
  lemma ReachesPrepend(store: TeamStore, a: Uuid, k: nat, x: Uuid)
    requires a in store && k < |Parents(store, a)|
    requires Reaches(store, Parents(store, a)[k].id, x)
    ensures Reaches(store, a, x)
  {
    var p :| IsChain(store, p) && p[0] == Parents(store, a)[k].id && p[|p| - 1] == x;
    var q := [a] + p;
    assert Link(store, q[0], q[1]);
    forall i | 0 <= i < |q| - 1
      ensures Link(store, q[i], q[i + 1])
    {
      if i > 0 {
        assert q[i] == p[i - 1] && q[i + 1] == p[i];
      }
    }
    assert IsChain(store, q);
  }

  /** A chain to a stored team `b` extends to each of `b`'s parents. */
  lemma ReachesAppend(store: TeamStore, a: Uuid, b: Uuid, k: nat)
    requires Reaches(store, a, b) && b in store && k < |Parents(store, b)|
    ensures Reaches(store, a, Parents(store, b)[k].id)
  {
    var p :| IsChain(store, p) && p[0] == a && p[|p| - 1] == b;
    var q := p + [Parents(store, b)[k].id];
    forall i | 0 <= i < |q| - 1
      ensures Link(store, q[i], q[i + 1])
    {
      if i < |p| - 1 {
        assert q[i] == p[i] && q[i + 1] == p[i + 1];
      } else {
        assert q[i] == b;
      }
    }
    assert IsChain(store, q);
  }

  /** A chain either stays at its start or leaves through one of the start's parents. */
  lemma ReachesFirstStep(store: TeamStore, a: Uuid, x: Uuid)
    requires Reaches(store, a, x)
    ensures x == a || (a in store && exists k :: 0 <= k < |Parents(store, a)| && Reaches(store, Parents(store, a)[k].id, x))
  {
    var p :| IsChain(store, p) && p[0] == a && p[|p| - 1] == x;
    if |p| > 1 {
      assert Link(store, p[0], p[1]);
      var k :| 0 <= k < |Parents(store, a)| && Parents(store, a)[k].id == p[1];
      var q := p[1..];
      forall i | 0 <= i < |q| - 1
        ensures Link(store, q[i], q[i + 1])
      {
        assert q[i] == p[i + 1] && q[i + 1] == p[i + 2];
      }
      assert IsChain(store, q);
      assert Reaches(store, Parents(store, a)[k].id, x);
    }
  }

  lemma ReachesFromConcat(store: TeamStore, a: seq<EntityReference>, b: seq<EntityReference>, x: Uuid)
    ensures ReachesFrom(store, a + b, x) <==> ReachesFrom(store, a, x) || ReachesFrom(store, b, x)
  {
    if ReachesFrom(store, a + b, x) {
      var i :| 0 <= i < |a + b| && Reaches(store, (a + b)[i].id, x);
      if i < |a| {
        assert (a + b)[i] == a[i];
      } else {
        assert (a + b)[i] == b[i - |a|];
      }
    }
    if ReachesFrom(store, a, x) {
      var i :| 0 <= i < |a| && Reaches(store, a[i].id, x);
      assert (a + b)[i] == a[i];
    }
    if ReachesFrom(store, b, x) {
      var i :| 0 <= i < |b| && Reaches(store, b[i].id, x);
      assert (a + b)[|a| + i] == b[i];
    }
  }

  /** What one reference reaches: itself, and, when it resolves, what its parents reach. */
  lemma ReachesFromSingle(store: TeamStore, ref: EntityReference, x: Uuid)
    ensures ReachesFrom(store, [ref], x) <==> x == ref.id || (ref.id in store && ReachesFrom(store, Parents(store, ref.id), x))
  {
    if ReachesFrom(store, [ref], x) {
      ReachesFirstStep(store, ref.id, x);
      if x != ref.id {
        var k :| 0 <= k < |Parents(store, ref.id)| && Reaches(store, Parents(store, ref.id)[k].id, x);
        assert ReachesFrom(store, Parents(store, ref.id), x);
      }
    }
    if x == ref.id {
      ReachesRefl(store, x);
      assert [ref][0] == ref;
    } else if ref.id in store && ReachesFrom(store, Parents(store, ref.id), x) {
      var k :| 0 <= k < |Parents(store, ref.id)| && Reaches(store, Parents(store, ref.id)[k].id, x);
      ReachesPrepend(store, ref.id, k, x);
      assert [ref][0] == ref;
    }
  }

  /** Popping a stored team off a stack and pushing its parents loses only that team. */
  lemma ReachesFromPop(store: TeamStore, stack: seq<EntityReference>, x: Uuid)
    requires |stack| > 0 && stack[|stack| - 1].id in store
    ensures ReachesFrom(store, stack, x) <==>
              x == stack[|stack| - 1].id
              || ReachesFrom(store, stack[..|stack| - 1] + Parents(store, stack[|stack| - 1].id), x)
  {
    var top := stack[|stack| - 1];
    var rest := stack[..|stack| - 1];
    assert stack == rest + [top];
    ReachesFromConcat(store, rest, [top], x);
    ReachesFromSingle(store, top, x);
    ReachesFromConcat(store, rest, Parents(store, top.id), x);
  }

  lemma ReachesFromExtend(store: TeamStore, refs: seq<EntityReference>, b: Uuid, k: nat)
    requires ReachesFrom(store, refs, b) && b in store && k < |Parents(store, b)|
    ensures ReachesFrom(store, refs, Parents(store, b)[k].id)
  {
    var i :| 0 <= i < |refs| && Reaches(store, refs[i].id, b);
    ReachesAppend(store, refs[i].id, b, k);
  }

  /** A list reaches every team that one of its stored members' parents reach. */
  lemma ReachesFromThrough(store: TeamStore, refs: seq<EntityReference>, i: nat, x: Uuid)
    requires i < |refs| && refs[i].id in store && ReachesFrom(store, Parents(store, refs[i].id), x)
    ensures ReachesFrom(store, refs, x)
  {
    var k :| 0 <= k < |Parents(store, refs[i].id)| && Reaches(store, Parents(store, refs[i].id)[k].id, x);
    ReachesPrepend(store, refs[i].id, k, x);
  }

  lemma SomeReachedConcat(store: TeamStore, a: seq<EntityReference>, b: seq<EntityReference>, test: Test)
    ensures SomeReached(store, a + b, test) <==> SomeReached(store, a, test) || SomeReached(store, b, test)
  {
    forall x
      ensures ReachesFrom(store, a + b, x) <==> ReachesFrom(store, a, x) || ReachesFrom(store, b, x)
    {
      ReachesFromConcat(store, a, b, x);
    }
  }

  /**
   * A single reference passes the walk when it resolves and either its own
   * team passes or something reachable from its parents does; a reference
   * that does not resolve contributes nothing.
   */
  lemma SomeReachedSingle(store: TeamStore, ref: EntityReference, test: Test)
    ensures SomeReached(store, [ref], test) <==>
              ref.id in store && (Holds(test, store[ref.id]) || SomeReached(store, Parents(store, ref.id), test))
  {
    forall x
      ensures ReachesFrom(store, [ref], x) <==> x == ref.id || (ref.id in store && ReachesFrom(store, Parents(store, ref.id), x))
    {
      ReachesFromSingle(store, ref, x);
    }
  }

  /** Every entry of a list reaches itself. */
  lemma ReachesFromMember(store: TeamStore, refs: seq<EntityReference>, i: nat)
    requires i < |refs|
    ensures ReachesFrom(store, refs, refs[i].id)
  {
    ReachesRefl(store, refs[i].id);
  }

  /** What a prefix reaches once the next entry of the list is added to it. */
  lemma ReachesFromStep(store: TeamStore, refs: seq<EntityReference>, i: nat, x: Uuid)
    requires i < |refs|
    ensures ReachesFrom(store, refs[..i + 1], x) <==>
              ReachesFrom(store, refs[..i], x) || x == refs[i].id ||
              (refs[i].id in store && ReachesFrom(store, Parents(store, refs[i].id), x))
  {
    assert refs[..i + 1] == refs[..i] + [refs[i]];
    ReachesFromConcat(store, refs[..i], [refs[i]], x);
    ReachesFromSingle(store, refs[i], x);
  }

  /** Whether a prefix passes once the next entry of the list is added to it. */
  lemma SomeReachedStep(store: TeamStore, refs: seq<EntityReference>, i: nat, test: Test)
    requires i < |refs|
    ensures SomeReached(store, refs[..i + 1], test) <==>
              SomeReached(store, refs[..i], test) ||
              (refs[i].id in store && (Holds(test, store[refs[i].id]) || SomeReached(store, Parents(store, refs[i].id), test)))
  {
    assert refs[..i + 1] == refs[..i] + [refs[i]];
    SomeReachedConcat(store, refs[..i], [refs[i]], test);
    SomeReachedSingle(store, refs[i], test);
  }

  /** What passes from a prefix of a list passes from the list. */
  lemma SomeReachedPrefix(store: TeamStore, refs: seq<EntityReference>, i: nat, test: Test)
    requires i <= |refs| && SomeReached(store, refs[..i], test)
    ensures SomeReached(store, refs, test)
  {
    assert refs == refs[..i] + refs[i..];
    SomeReachedConcat(store, refs[..i], refs[i..], test);
  }

  /**
   * The roles granted from one more entry of a list are its team's own
   * default roles and those inherited from its parents.
   */
  lemma GrantsStep(store: TeamStore, refs: seq<EntityReference>, i: nat,
                   roles: seq<EntityReference>, own: seq<EntityReference>, inherited: seq<EntityReference>)
    requires i < |refs| && refs[i].id in store && store[refs[i].id].defaultRoles == Some(own)
    requires forall e :: e in roles <==> SomeReached(store, refs[..i], Grants(e))
    requires forall e :: e in inherited <==> SomeReached(store, Parents(store, refs[i].id), Grants(e))
    ensures forall e :: e in roles + own + inherited <==> SomeReached(store, refs[..i + 1], Grants(e))
  {
    forall e
      ensures e in roles + own + inherited <==> SomeReached(store, refs[..i + 1], Grants(e))
    {
      SomeReachedStep(store, refs, i, Grants(e));
    }
  }

  /** An entry that does not resolve grants nothing. */
  lemma GrantsSkip(store: TeamStore, refs: seq<EntityReference>, i: nat, roles: seq<EntityReference>)
    requires i < |refs| && refs[i].id !in store
    requires forall e :: e in roles <==> SomeReached(store, refs[..i], Grants(e))
    ensures forall e :: e in roles <==> SomeReached(store, refs[..i + 1], Grants(e))
  {
    forall e
      ensures e in roles <==> SomeReached(store, refs[..i + 1], Grants(e))
    {
      SomeReachedStep(store, refs, i, Grants(e));
    }
  }

  // ---------------------------------------------------------------------------
  // The stack walk: what holds between two pops

  /**
   * Between pops of a walk from `start`: everything on the stack is reachable
   * from `start`, every team already looked at is reachable, resolved and
   * failed `test`, and whatever `start` reaches was looked at or is reachable
   * from the stack.
   */
  ghost predicate WalkInvariant(store: TeamStore, start: seq<EntityReference>, test: Test,
                                stack: seq<EntityReference>, visited: set<Uuid>) {
    (forall i :: 0 <= i < |stack| ==> ReachesFrom(store, start, stack[i].id)) &&
    (forall x :: x in visited ==> x in store && !Holds(test, store[x]) && ReachesFrom(store, start, x)) &&
    (forall x :: ReachesFrom(store, start, x) ==> x in visited || ReachesFrom(store, stack, x))
  }

  lemma WalkBegins(store: TeamStore, start: seq<EntityReference>, test: Test)
    ensures WalkInvariant(store, start, test, start, {})
  {
    forall i | 0 <= i < |start|
      ensures ReachesFrom(store, start, start[i].id)
    {
      ReachesRefl(store, start[i].id);
    }
  }

  /** The top of the stack is reachable from `start`. */
  lemma WalkTop(store: TeamStore, start: seq<EntityReference>, test: Test,
                stack: seq<EntityReference>, visited: set<Uuid>)
    requires WalkInvariant(store, start, test, stack, visited) && stack != []
    ensures ReachesFrom(store, start, stack[|stack| - 1].id)
  {
    assert 0 <= |stack| - 1 < |stack|;
  }

  /** Popping a stored team that fails `test` and pushing its parents keeps the invariant. */
  lemma WalkSteps(store: TeamStore, start: seq<EntityReference>, test: Test,
                  stack: seq<EntityReference>, visited: set<Uuid>)
    requires WalkInvariant(store, start, test, stack, visited)
    requires |stack| > 0 && stack[|stack| - 1].id in store
    requires !Holds(test, store[stack[|stack| - 1].id])
    ensures WalkInvariant(store, start, test,
                          stack[..|stack| - 1] + Parents(store, stack[|stack| - 1].id),
                          visited + {stack[|stack| - 1].id})
  {
    var top := stack[|stack| - 1];
    var next := stack[..|stack| - 1] + Parents(store, top.id);
    assert ReachesFrom(store, start, top.id);
    forall x | ReachesFrom(store, start, x)
      ensures x in visited + {top.id} || ReachesFrom(store, next, x)
    {
      ReachesFromPop(store, stack, x);
    }
    forall i | 0 <= i < |next|
      ensures ReachesFrom(store, start, next[i].id)
    {
      if i >= |stack| - 1 {
        ReachesFromExtend(store, start, top.id, i - (|stack| - 1));
      } else {
        assert next[i] == stack[i];
      }
    }
  }

  /** A walk whose stack is empty looked at everything `start` reaches. */
  lemma WalkEnds(store: TeamStore, start: seq<EntityReference>, test: Test, visited: set<Uuid>)
    requires WalkInvariant(store, start, test, [], visited)
    ensures AllReachedResolve(store, start) && !SomeReached(store, start, test)
    ensures forall x :: ReachesFrom(store, start, x) ==> x in visited
  {
  }

  // ---------------------------------------------------------------------------
  // Acyclicity and the measures that make the walks terminate

  /** `rank` strictly decreases from every stored team to each of its stored parents. */
  ghost predicate RankedBy(store: TeamStore, rank: map<Uuid, nat>) {
    store.Keys <= rank.Keys &&
    forall a, k :: a in store && 0 <= k < |Parents(store, a)| && Parents(store, a)[k].id in store ==>
      rank[Parents(store, a)[k].id] < rank[a]
  }

  /**
   * The hierarchy has a ranking. This rules out a team being its own ancestor
   * (NoTeamIsItsOwnAncestor); the converse is not proved here.
   */
  ghost predicate Acyclic(store: TeamStore) {
    exists rank :: RankedBy(store, rank)
  }

  ghost function TheRank(store: TeamStore): (rank: map<Uuid, nat>)
    requires Acyclic(store)
    ensures RankedBy(store, rank)
  {
    var rank :| RankedBy(store, rank); rank
  }

  lemma {:induction false} RankDecreasesAlongChain(store: TeamStore, rank: map<Uuid, nat>, path: seq<Uuid>)
    requires RankedBy(store, rank) && IsChain(store, path) && |path| > 1
    requires path[0] in store && path[|path| - 1] in store
    ensures rank[path[|path| - 1]] < rank[path[0]]
    decreases |path|
  {
    assert Link(store, path[0], path[1]);
    var k :| 0 <= k < |Parents(store, path[0])| && Parents(store, path[0])[k].id == path[1];
    if |path| > 2 {
      assert Link(store, path[1], path[2]);
      var q := path[1..];
      forall i | 0 <= i < |q| - 1
        ensures Link(store, q[i], q[i + 1])
      {
        assert q[i] == path[i + 1] && q[i + 1] == path[i + 2];
      }
      assert q[0] in store;
      RankDecreasesAlongChain(store, rank, q);
    }
  }

  /** Under a ranking no team is reachable from itself through one or more parent links. */
  lemma NoTeamIsItsOwnAncestor(store: TeamStore, a: Uuid, path: seq<Uuid>)
    requires Acyclic(store)
    requires IsChain(store, path) && |path| > 1 && path[0] == a
    ensures path[|path| - 1] != a
  {
    if path[|path| - 1] == a {
      assert Link(store, path[0], path[1]);
      RankDecreasesAlongChain(store, TheRank(store), path);
    }
  }

  /** One more than the highest rank among the stored references of `refs`; 0 when none is stored. */
  ghost function Level(store: TeamStore, rank: map<Uuid, nat>, refs: seq<EntityReference>): nat
    requires RankedBy(store, rank)
  {
    if refs == [] then 0
    else
      var last := refs[|refs| - 1];
      var here := if last.id in store then rank[last.id] + 1 else 0;
      var below := Level(store, rank, refs[..|refs| - 1]);
      if here < below then below else here
  }

  lemma {:induction false} LevelAbove(store: TeamStore, rank: map<Uuid, nat>, refs: seq<EntityReference>, i: nat)
    requires RankedBy(store, rank) && i < |refs| && refs[i].id in store
    ensures rank[refs[i].id] < Level(store, rank, refs)
    decreases |refs|
  {
    if i < |refs| - 1 {
      LevelAbove(store, rank, refs[..|refs| - 1], i);
    }
  }

  lemma {:induction false} LevelAtMost(store: TeamStore, rank: map<Uuid, nat>, refs: seq<EntityReference>, bound: nat)
    requires RankedBy(store, rank)
    requires forall i :: 0 <= i < |refs| && refs[i].id in store ==> rank[refs[i].id] < bound
    ensures Level(store, rank, refs) <= bound
    decreases |refs|
  {
    if refs != [] {
      LevelAtMost(store, rank, refs[..|refs| - 1], bound);
    }
  }

  lemma ParentsBelow(store: TeamStore, rank: map<Uuid, nat>, a: Uuid)
    requires RankedBy(store, rank) && a in store
    ensures Level(store, rank, Parents(store, a)) <= rank[a]
  {
    LevelAtMost(store, rank, Parents(store, a), rank[a]);
  }

  /**
   * The number of stack pops a walk from `refs` can still make: one per
   * reference, plus, for a stored one, the weight of its parents.
   */
  ghost function Weight(store: TeamStore, rank: map<Uuid, nat>, refs: seq<EntityReference>): nat
    requires RankedBy(store, rank)
    decreases Level(store, rank, refs), |refs|
  {
    if refs == [] then 0
    else
      var last := refs[|refs| - 1];
      Weight(store, rank, refs[..|refs| - 1]) +
      if last.id in store then
        ParentsBelow(store, rank, last.id);
        1 + Weight(store, rank, Parents(store, last.id))
      else 1
  }

  lemma {:induction false} WeightConcat(store: TeamStore, rank: map<Uuid, nat>, a: seq<EntityReference>, b: seq<EntityReference>)
    requires RankedBy(store, rank)
    ensures Weight(store, rank, a + b) == Weight(store, rank, a) + Weight(store, rank, b)
    decreases |b|
  {
    if b == [] {
      assert a + b == a;
    } else {
      var b' := b[..|b| - 1];
      WeightConcat(store, rank, a, b');
      assert (a + b)[..|a + b| - 1] == a + b';
      assert (a + b)[|a + b| - 1] == b[|b| - 1];
    }
  }

  /** Popping a stored team and pushing its parents lowers the weight of the stack. */
  lemma WeightPop(store: TeamStore, rank: map<Uuid, nat>, stack: seq<EntityReference>)
    requires RankedBy(store, rank) && |stack| > 0 && stack[|stack| - 1].id in store
    ensures Weight(store, rank, stack[..|stack| - 1] + Parents(store, stack[|stack| - 1].id)) < Weight(store, rank, stack)
  {
    WeightConcat(store, rank, stack[..|stack| - 1], Parents(store, stack[|stack| - 1].id));
  }

  // ---------------------------------------------------------------------------
  // Removing duplicates, keeping first occurrences

  predicate NoDuplicates<T(==)>(s: seq<T>) {
    forall i, j :: 0 <= i < j < |s| ==> s[i] != s[j]
  }

  /** The elements of `s` without repetitions, each at the place it first occurs. */
  function Distinct<T(==)>(s: seq<T>): (r: seq<T>)
    ensures NoDuplicates(r)
    ensures forall i :: 0 <= i < |r| ==> r[i] in s
    ensures forall i :: 0 <= i < |s| ==> s[i] in r
    ensures |r| <= |s|
  {
    if s == [] then []
    else
      var rest := Distinct(s[..|s| - 1]);
      assert s == s[..|s| - 1] + [s[|s| - 1]];
      if s[|s| - 1] in rest then rest else rest + [s[|s| - 1]]
  }

  /** Distinct drops repetitions only: it keeps exactly the elements of its input. */
  lemma DistinctSameElements<T>(s: seq<T>)
    ensures forall e :: e in Distinct(s) <==> e in s
  {
    var r := Distinct(s);
    forall e
      ensures e in r <==> e in s
    {
      if e in r {
        var k :| 0 <= k < |r| && r[k] == e;
      }
      if e in s {
        var k :| 0 <= k < |s| && s[k] == e;
      }
    }
  }
}
