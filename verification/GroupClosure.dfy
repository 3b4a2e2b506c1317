/** Identity enrichment: the worklist that closes a user's direct groups under "parent of", over a
    group graph that may be cyclic or mention undefined groups, and the cache in front of it. */
module GroupClosure {
  import opened Results
  import opened Sequences

  type Uid = string

  /** A defined group's parents, in the order they were configured. */
  type GroupGraph = map<Uid, seq<Uid>>

  datatype UserFacts = UserFacts(attributes: seq<(string, string)>, groups: seq<Uid>)

  datatype Group = Group(uid: Uid, parents: seq<Uid>)

  datatype Enrichment =
    Enrichment(attributes: seq<(string, string)>, groups: seq<Uid>, groupHierarchy: seq<Group>)

  const NO_FACTS := Enrichment([], [], [])

  /** A group nobody defined has no parents. */
  function Parents(graph: GroupGraph, g: Uid): seq<Uid> {
    if g in graph then graph[g] else []
  }

  function GroupNode(graph: GroupGraph, g: Uid): Group {
    Group(g, Parents(graph, g))
  }

  // ---------------------------------------------------------------- reachability, by paths

  predicate IsPath(graph: GroupGraph, path: seq<Uid>) {
    path != [] && forall i :: 1 <= i < |path| ==> path[i] in Parents(graph, path[i - 1])
  }

  predicate LeadsTo(graph: GroupGraph, direct: seq<Uid>, path: seq<Uid>, g: Uid) {
    IsPath(graph, path) && path[0] in direct && path[|path| - 1] == g
  }

  ghost predicate Reachable(graph: GroupGraph, direct: seq<Uid>, g: Uid) {
    exists path :: LeadsTo(graph, direct, path, g)
  }

  lemma DirectIsReachable(graph: GroupGraph, direct: seq<Uid>, g: Uid)
    requires g in direct
    ensures Reachable(graph, direct, g)
  {
    assert LeadsTo(graph, direct, [g], g);
  }

  lemma ParentIsReachable(graph: GroupGraph, direct: seq<Uid>, g: Uid, parent: Uid)
    requires Reachable(graph, direct, g) && parent in Parents(graph, g)
    ensures Reachable(graph, direct, parent)
  {
    var path :| LeadsTo(graph, direct, path, g);
    assert LeadsTo(graph, direct, path + [parent], parent);
  }

  /** A set that holds the direct groups and the parents of its members holds all that is reachable. */
  lemma {:induction false} ClosedHoldsPath(graph: GroupGraph, direct: seq<Uid>, closed: set<Uid>, path: seq<Uid>,
                                           k: nat)
    requires forall g <- direct :: g in closed
    requires forall g <- closed :: forall p <- Parents(graph, g) :: p in closed
    requires IsPath(graph, path) && path[0] in direct && k < |path|
    ensures path[k] in closed
  {
    if k > 0 { ClosedHoldsPath(graph, direct, closed, path, k - 1); }
  }

  // ---------------------------------------------------------------- what an answer must be

  /** The hierarchy lists exactly the reachable groups, each once and with its own parents. */
  ghost predicate IsHierarchy(graph: GroupGraph, direct: seq<Uid>, hierarchy: seq<Group>) {
    && (forall g :: Reachable(graph, direct, g) <==> exists i :: 0 <= i < |hierarchy| && hierarchy[i].uid == g)
    && (forall i, j :: 0 <= i < j < |hierarchy| ==> hierarchy[i].uid != hierarchy[j].uid)
    && (forall i :: 0 <= i < |hierarchy| ==> hierarchy[i] == GroupNode(graph, hierarchy[i].uid))
  }

  ghost predicate Enriches(users: map<Uid, UserFacts>, graph: GroupGraph, uid: Uid, e: Enrichment) {
    if uid !in users then e == NO_FACTS
    else
      && e.attributes == users[uid].attributes
      && e.groups == users[uid].groups
      && IsHierarchy(graph, users[uid].groups, e.groupHierarchy)
  }

  /** Everything seen or waiting is reachable, and every parent of something seen is seen or waiting. */
  ghost predicate Walking(graph: GroupGraph, direct: seq<Uid>, frontier: seq<Uid>, seen: set<Uid>) {
    && (forall g <- frontier :: Reachable(graph, direct, g))
    && (forall g <- seen :: Reachable(graph, direct, g))
    && (forall g <- direct :: g in seen || g in frontier)
    && (forall g <- seen :: forall p <- Parents(graph, g) :: p in seen || p in frontier)
  }

  /** What has been emitted is what has been seen, each once, with its own parents. */
  ghost predicate Emitted(graph: GroupGraph, seen: set<Uid>, out: seq<Group>) {
    && (forall g :: g in seen <==> exists i :: 0 <= i < |out| && out[i].uid == g)
    && (forall i, j :: 0 <= i < j < |out| ==> out[i].uid != out[j].uid)
    && (forall i :: 0 <= i < |out| ==> out[i] == GroupNode(graph, out[i].uid))
  }

  /** The groups a walk can meet: finitely many. */
  ghost predicate Bounds(graph: GroupGraph, universe: set<Uid>, frontier: seq<Uid>) {
    && (forall g <- frontier :: g in universe)
    && (forall g <- graph :: forall p <- graph[g] :: p in universe)
  }

  ghost function Universe(graph: GroupGraph, direct: seq<Uid>): (u: set<Uid>)
    ensures Bounds(graph, u, direct)
  {
    (set g | g in direct) + (set g, p | g in graph && p in graph[g] :: p)
  }

  /** The worklist: take the last waiting group; skip it when seen, else emit it and let its parents
      wait. Every run ends, because a group enters `seen` once and only so many are ever named. */
  ghost function Closure(graph: GroupGraph, universe: set<Uid>, frontier: seq<Uid>, seen: set<Uid>,
                         out: seq<Group>): seq<Group>
    requires Bounds(graph, universe, frontier)
    decreases |universe - seen|, |frontier|
  {
    if frontier == [] then out
    else
      var g, rest := frontier[|frontier| - 1], frontier[..|frontier| - 1];
      if g in seen then Closure(graph, universe, rest, seen, out)
      else
        assert universe - (seen + {g}) == (universe - seen) - {g};
        Closure(graph, universe, rest + Parents(graph, g), seen + {g}, out + [GroupNode(graph, g)])
  }

  lemma VisitKeepsWalking(graph: GroupGraph, direct: seq<Uid>, rest: seq<Uid>, g: Uid, seen: set<Uid>)
    requires Walking(graph, direct, rest + [g], seen)
    ensures Walking(graph, direct, rest + Parents(graph, g), seen + {g})
  {
    var waiting := rest + [g];
    assert forall h <- rest :: h in waiting;
    assert g in waiting;
    forall p | p in Parents(graph, g) ensures Reachable(graph, direct, p) {
      ParentIsReachable(graph, direct, g, p);
    }
  }

  lemma SkipKeepsWalking(graph: GroupGraph, direct: seq<Uid>, rest: seq<Uid>, g: Uid, seen: set<Uid>)
    requires Walking(graph, direct, rest + [g], seen) && g in seen
    ensures Walking(graph, direct, rest, seen)
  {
  }

  lemma VisitEmits(graph: GroupGraph, g: Uid, seen: set<Uid>, out: seq<Group>)
    requires Emitted(graph, seen, out) && g !in seen
    ensures Emitted(graph, seen + {g}, out + [GroupNode(graph, g)])
  {
    var out' := out + [GroupNode(graph, g)];
    forall h ensures h in seen + {g} <==> exists i :: 0 <= i < |out'| && out'[i].uid == h {
      if h == g { assert out'[|out|].uid == g; }
      if h in seen {
        var i :| 0 <= i < |out| && out[i].uid == h;
        assert out'[i].uid == h;
      }
    }
  }

  /** When nothing waits any more, the output is the hierarchy. */
  lemma WalkedAll(graph: GroupGraph, direct: seq<Uid>, seen: set<Uid>, out: seq<Group>)
    requires Walking(graph, direct, [], seen) && Emitted(graph, seen, out)
    ensures IsHierarchy(graph, direct, out)
  {
    forall g ensures g in seen <==> Reachable(graph, direct, g) {
      if Reachable(graph, direct, g) {
        var path :| LeadsTo(graph, direct, path, g);
        ClosedHoldsPath(graph, direct, seen, path, |path| - 1);
      }
    }
  }

  lemma {:induction false} ClosureFrom(graph: GroupGraph, universe: set<Uid>, direct: seq<Uid>, frontier: seq<Uid>,
                                       seen: set<Uid>, out: seq<Group>)
    requires Bounds(graph, universe, frontier)
    requires Walking(graph, direct, frontier, seen) && Emitted(graph, seen, out)
    ensures IsHierarchy(graph, direct, Closure(graph, universe, frontier, seen, out))
    decreases |universe - seen|, |frontier|
  {
    if frontier == [] {
      WalkedAll(graph, direct, seen, out);
    } else {
      var g, rest := frontier[|frontier| - 1], frontier[..|frontier| - 1];
      SplitLast(frontier, rest, g);
      if g in seen {
        SkipKeepsWalking(graph, direct, rest, g, seen);
        ClosureFrom(graph, universe, direct, rest, seen, out);
      } else {
        VisitKeepsWalking(graph, direct, rest, g, seen);
        VisitEmits(graph, g, seen, out);
        assert universe - (seen + {g}) == (universe - seen) - {g};
        ClosureFrom(graph, universe, direct, rest + Parents(graph, g), seen + {g}, out + [GroupNode(graph, g)]);
      }
    }
  }

  /** For every group graph the worklist's output is the hierarchy of the direct groups. */
  lemma ClosureIsHierarchy(graph: GroupGraph, direct: seq<Uid>)
    ensures IsHierarchy(graph, direct, Closure(graph, Universe(graph, direct), direct, {}, []))
  {
    forall g | g in direct ensures Reachable(graph, direct, g) {
      DirectIsReachable(graph, direct, g);
    }
    ClosureFrom(graph, Universe(graph, direct), direct, direct, {}, []);
  }

  /** Two answers for the same user differ at most in the order of the hierarchy. */
  lemma HierarchyUnique(graph: GroupGraph, direct: seq<Uid>, a: seq<Group>, b: seq<Group>)
    requires IsHierarchy(graph, direct, a) && IsHierarchy(graph, direct, b)
    ensures forall n :: n in a <==> n in b
  {
    HierarchyIncluded(graph, direct, a, b);
    HierarchyIncluded(graph, direct, b, a);
  }

  lemma HierarchyIncluded(graph: GroupGraph, direct: seq<Uid>, a: seq<Group>, b: seq<Group>)
    requires IsHierarchy(graph, direct, a) && IsHierarchy(graph, direct, b)
    ensures forall n <- a :: n in b
  {
    forall n | n in a ensures n in b {
      var i :| 0 <= i < |a| && a[i] == n;
      assert Reachable(graph, direct, a[i].uid);
      var j :| 0 <= j < |b| && b[j].uid == n.uid;
    }
  }

  // ---------------------------------------------------------------- the provider

  /** The provider over a static configuration. */
  class ConfigIdentityProvider {
    const users: map<Uid, UserFacts>
    const groups: GroupGraph

    constructor (users: map<Uid, UserFacts>, groups: GroupGraph)
      ensures this.users == users && this.groups == groups
    {
      this.users, this.groups := users, groups;
    }

    method Enrich(uid: Uid) returns (e: Enrichment)
      ensures Enriches(users, groups, uid, e)
    {
      if uid !in users { return NO_FACTS; }
      var user := users[uid];
      var hierarchy: seq<Group> := [];
      var seen: set<Uid> := {};
      var frontier := user.groups;
      ghost var universe := Universe(groups, frontier);
      ClosureIsHierarchy(groups, frontier);
      ghost var closure := Closure(groups, universe, frontier, {}, []);
      while frontier != []
        invariant Bounds(groups, universe, frontier)
        invariant closure == Closure(groups, universe, frontier, seen, hierarchy)
        decreases |universe - seen|, |frontier|
      {
        var g;
        g, frontier := frontier[|frontier| - 1], frontier[..|frontier| - 1];
        if g in seen { continue; }
        assert universe - (seen + {g}) == (universe - seen) - {g};
        seen := seen + {g};
        if g in groups { frontier := frontier + groups[g]; } else { assert frontier == frontier + Parents(groups, g); }
        hierarchy := hierarchy + [GroupNode(groups, g)];
      }
      e := Enrichment(user.attributes, user.groups, hierarchy);
    }
  }

  // ---------------------------------------------------------------- the engine's cache

  /** The process-wide cache keyed by uid. `up` stands for whether the provider can be reached. */
  class Engine {
    const identity: ConfigIdentityProvider
    var enrichmentCache: map<Uid, Enrichment>

    ghost predicate Valid()
      reads this
    {
      forall uid <- enrichmentCache :: Enriches(identity.users, identity.groups, uid, enrichmentCache[uid])
    }

    constructor (identity: ConfigIdentityProvider)
      ensures Valid() && this.identity == identity && enrichmentCache == map[]
    {
      this.identity, enrichmentCache := identity, map[];
    }

    /** A cached uid is answered from the cache even when the provider is down; a failed call leaves
        the cache as it was, so an error is never remembered; and a uid's answer never changes. */
    method Enrich(uid: Uid, up: bool) returns (r: Result<Enrichment, ()>)
      requires Valid()
      modifies this
      ensures Valid()
      ensures r.Ok? <==> uid in old(enrichmentCache) || up
      ensures r.Ok? ==> Enriches(identity.users, identity.groups, uid, r.value)
      ensures enrichmentCache == if r.Ok? then old(enrichmentCache)[uid := r.value] else old(enrichmentCache)
      ensures uid in old(enrichmentCache) ==> r == Ok(old(enrichmentCache)[uid])
    {
      if uid in enrichmentCache {
        assert enrichmentCache[uid := enrichmentCache[uid]] == enrichmentCache;
        return Ok(enrichmentCache[uid]);
      }
      if !up { return Err(()); }
      var enrichment := identity.Enrich(uid);
      enrichmentCache := enrichmentCache[uid := enrichment];
      return Ok(enrichment);
    }
  }
}
