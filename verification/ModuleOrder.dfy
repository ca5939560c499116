/** Collecting a module and its dependencies, dependencies first
    (crates/movy-static-analysis/src/sui/common.rs). */
module ModuleOrder {
  import opened Abi

  datatype Module = Module(id: ModuleId, dependencies: seq<ModuleId>)

  /** What the object store would hand out for each module identity; identities not in it are unavailable. */
  type Modules = map<ModuleId, Module>

  /** Fetching yields the module asked for. */
  ghost predicate Faithful(store: Modules) {
    forall k :: k in store ==> store[k].id == k
  }

  ghost function Ids(ms: seq<Module>): set<ModuleId> {
    set k | 0 <= k < |ms| :: ms[k].id
  }

  ghost predicate DistinctIds(ms: seq<Module>) {
    forall i, j :: 0 <= i < j < |ms| ==> ms[i].id != ms[j].id
  }

  // ----- the dependency graph

  ghost predicate Edge(world: Modules, a: ModuleId, b: ModuleId) {
    a in world && b in world && b in world[a].dependencies
  }

  ghost predicate Path(world: Modules, p: seq<ModuleId>) {
    p != [] && forall k :: 0 <= k < |p| - 1 ==> Edge(world, p[k], p[k + 1])
  }

  ghost predicate Reaches(world: Modules, a: ModuleId, b: ModuleId) {
    exists p :: Path(world, p) && p[0] == a && p[|p| - 1] == b
  }

  lemma {:induction false} ReachesSelf(world: Modules, a: ModuleId)
    ensures Reaches(world, a, a)
  {
    assert Path(world, [a]);
  }

  lemma {:induction false} ReachesStep(world: Modules, a: ModuleId, b: ModuleId, c: ModuleId)
    requires Reaches(world, a, b) && Edge(world, b, c)
    ensures Reaches(world, a, c)
  {
    var p :| Path(world, p) && p[0] == a && p[|p| - 1] == b;
    var q := p + [c];
    forall k | 0 <= k < |q| - 1 ensures Edge(world, q[k], q[k + 1]) {
      if k < |p| - 1 { assert Edge(world, p[k], p[k + 1]); }
    }
    assert Path(world, q) && q[0] == a && q[|q| - 1] == c;
  }

  lemma {:induction false} ReachesThrough(world: Modules, a: ModuleId, p: seq<ModuleId>)
    requires Path(world, p) && Reaches(world, a, p[0])
    ensures Reaches(world, a, p[|p| - 1])
    decreases |p|
  {
    if |p| > 1 {
      var front := p[..|p| - 1];
      assert Path(world, front) by {
        forall k | 0 <= k < |front| - 1 ensures Edge(world, front[k], front[k + 1]) {
          assert Edge(world, p[k], p[k + 1]);
        }
      }
      ReachesThrough(world, a, front);
      assert Edge(world, p[|p| - 2], p[|p| - 2 + 1]);
      ReachesStep(world, a, p[|p| - 2], p[|p| - 1]);
    }
  }

  lemma {:induction false} ReachesTransitive(world: Modules, a: ModuleId, b: ModuleId, c: ModuleId)
    requires Reaches(world, a, b) && Reaches(world, b, c)
    ensures Reaches(world, a, c)
  {
    var p :| Path(world, p) && p[0] == b && p[|p| - 1] == c;
    ReachesThrough(world, a, p);
  }

  // ----- depth-first collection

  /** d is listed before position p, or the module at p can be reached back from it. */
  ghost predicate BeforeOrCyclic(world: Modules, ms: seq<Module>, p: nat, d: ModuleId)
    requires p < |ms|
  {
    d in Ids(ms[..p]) || Reaches(world, d, ms[p].id)
  }

  /** The modules listed from position `start` on: each is the one of its name, reached from `from`, and each
      of their available dependencies has been visited and is listed earlier, if it is not part of a cycle. */
  ghost predicate Listed(world: Modules, from: ModuleId, visited: set<ModuleId>, ms: seq<Module>, start: nat) {
    forall p :: start <= p < |ms| ==>
      && ms[p].id in world && ms[p] == world[ms[p].id]
      && Reaches(world, from, ms[p].id)
      && forall d :: d in ms[p].dependencies && d in world ==> d in visited && BeforeOrCyclic(world, ms, p, d)
  }

  /** What has been visited and listed since `visited0` and `ordered0`; `open` are the modules whose turn is not
      over. */
  ghost predicate Explored(world: Modules, from: ModuleId, visited0: set<ModuleId>, ordered0: seq<Module>,
                           visited: set<ModuleId>, ordered: seq<Module>, open: set<ModuleId>) {
    && visited0 <= visited && ordered0 <= ordered && Ids(ordered) <= visited
    && DistinctIds(ordered)
    && (forall p :: |ordered0| <= p < |ordered| ==> ordered[p].id !in visited0)
    && visited - Ids(ordered) <= (visited0 - Ids(ordered0)) + open
    && Listed(world, from, visited, ordered, |ordered0|)
  }

  /** Modules visited but not yet listed are those being worked on: they all lead to m. */
  ghost predicate LeadTo(world: Modules, visited: set<ModuleId>, ordered: seq<Module>, m: ModuleId) {
    forall g :: g in visited && g !in Ids(ordered) ==> Reaches(world, g, m)
  }

  lemma {:induction false} IdsAppend(ms: seq<Module>, m: Module)
    ensures Ids(ms + [m]) == Ids(ms) + {m.id}
  {
    forall x ensures x in Ids(ms + [m]) <==> x in Ids(ms) + {m.id} {
      if x in Ids(ms) {
        var k :| 0 <= k < |ms| && ms[k].id == x;
        assert (ms + [m])[k].id == x;
      }
      assert (ms + [m])[|ms|].id == m.id;
    }
  }

  /** Exploring a dependency of m carries m's own exploration on. */
  lemma {:induction false} ExploreOn(world: Modules, m: ModuleId, d: ModuleId, visited0: set<ModuleId>,
                                     ordered0: seq<Module>,
                  visited1: set<ModuleId>, ordered1: seq<Module>, visited2: set<ModuleId>, ordered2: seq<Module>)
    requires Explored(world, m, visited0, ordered0, visited1, ordered1, {m})
    requires Explored(world, d, visited1, ordered1, visited2, ordered2, {})
    requires Edge(world, m, d)
    ensures Explored(world, m, visited0, ordered0, visited2, ordered2, {m})
  {
    ReachesSelf(world, m);
    ReachesStep(world, m, m, d);
    forall p | |ordered0| <= p < |ordered2|
      ensures ordered2[p].id in world && ordered2[p] == world[ordered2[p].id]
      ensures Reaches(world, m, ordered2[p].id)
      ensures forall e :: e in ordered2[p].dependencies && e in world ==>
                e in visited2 && BeforeOrCyclic(world, ordered2, p, e)
    {
      if p < |ordered1| {
        assert ordered2[p] == ordered1[p] && ordered2[..p] == ordered1[..p];
      } else {
        ReachesTransitive(world, m, d, ordered2[p].id);
      }
    }
  }

  /** Listing m at the end of its turn. */
  lemma {:induction false} ListModule(world: Modules, m: Module, visited0: set<ModuleId>, ordered0: seq<Module>,
                   visited: set<ModuleId>, ordered: seq<Module>)
    requires m.id in world && world[m.id] == m && m.id !in visited0 && m.id in visited && Ids(ordered0) <= visited0
    requires Explored(world, m.id, visited0, ordered0, visited, ordered, {m.id}) && m.id !in Ids(ordered)
    requires LeadTo(world, visited0, ordered0, m.id)
    requires forall d :: d in m.dependencies && d in world ==> d in visited
    ensures Explored(world, m.id, visited0, ordered0, visited, ordered + [m], {})
  {
    var listed := ordered + [m];
    IdsAppend(ordered, m);
    ReachesSelf(world, m.id);
    forall p | |ordered0| <= p < |listed|
      ensures listed[p].id in world && listed[p] == world[listed[p].id]
      ensures Reaches(world, m.id, listed[p].id)
      ensures forall d :: d in listed[p].dependencies && d in world ==>
                d in visited && BeforeOrCyclic(world, listed, p, d)
    {
      if p < |ordered| {
        assert listed[p] == ordered[p] && listed[..p] == ordered[..p];
      } else {
        assert listed[..p] == ordered;
      }
    }
    forall i, j | 0 <= i < j < |listed| ensures listed[i].id != listed[j].id {
      if j == |ordered| { assert listed[i].id in Ids(ordered); }
    }
  }

  lemma {:induction false} StillUnlisted(world: Modules, d: ModuleId, visited0: set<ModuleId>, ordered0: seq<Module>,
                      visited: set<ModuleId>, ordered: seq<Module>, m: ModuleId)
    requires Explored(world, d, visited0, ordered0, visited, ordered, {}) && m in visited0 && m !in Ids(ordered0)
    ensures m !in Ids(ordered)
  {
    forall p | 0 <= p < |ordered| ensures ordered[p].id != m {
      if p < |ordered0| { assert ordered[p] == ordered0[p] && ordered0[p].id in Ids(ordered0); }
    }
  }

  ghost function Universe(store: Modules, root: ModuleId): set<ModuleId> {
    (set k | k in store :: store[k].id) + {root}
  }

  /** The graph explored from a root: the root itself is given, everything else is fetched. */
  ghost function World(store: Modules, root: Module): Modules {
    store[root.id := root]
  }

  /** `collect_modules_rec`. It terminates whatever the store hands out and however the dependencies loop. */
  method CollectModulesRec(store: Modules, ghost root: Module, m: Module, visited: set<ModuleId>, ordered: seq<Module>)
      returns (visited': set<ModuleId>, ordered': seq<Module>)
    requires m.id in Universe(store, root.id)
    requires m.id != root.id ==> root.id in visited
    requires Faithful(store) ==>
               && m.id in World(store, root) && World(store, root)[m.id] == m
               && Ids(ordered) <= visited && DistinctIds(ordered)
               && LeadTo(World(store, root), visited, ordered, m.id)
    ensures visited <= visited' && m.id in visited'
    ensures m.id in visited ==> visited' == visited && ordered' == ordered
    ensures m.id !in visited ==> ordered' != [] && ordered'[|ordered'| - 1] == m
    ensures Faithful(store) ==> Explored(World(store, root), m.id, visited, ordered, visited', ordered', {})
    decreases Universe(store, root.id) - visited
  {
    ghost var world := World(store, root);
    if m.id in visited {
      return visited, ordered;
    }
    visited', ordered' := visited + {m.id}, ordered;
    for k := 0 to |m.dependencies|
      invariant visited + {m.id} <= visited'
      invariant root.id in visited'
      invariant Faithful(store) ==>
                  && Explored(world, m.id, visited, ordered, visited', ordered', {m.id})
                  && m.id !in Ids(ordered')
                  && forall j :: 0 <= j < k && m.dependencies[j] in world ==> m.dependencies[j] in visited'
    {
      var d := m.dependencies[k];
      if d in visited' {
        continue;
      }
      if d in store {
        if Faithful(store) {
          assert world[d] == store[d];
          assert Edge(world, m.id, d);
          forall g | g in visited' && g !in Ids(ordered') ensures Reaches(world, g, d) {
            ReachesSelf(world, m.id);
            ReachesStep(world, g, m.id, d);
          }
        }
        ghost var visited1, ordered1 := visited', ordered';
        visited', ordered' := CollectModulesRec(store, root, store[d], visited', ordered');
        if Faithful(store) {
          ExploreOn(world, m.id, d, visited, ordered, visited1, ordered1, visited', ordered');
          StillUnlisted(world, d, visited1, ordered1, visited', ordered', m.id);
        }
      }
    }
    if Faithful(store) { ListModule(world, m, visited, ordered, visited', ordered'); }
    ordered' := ordered' + [m];
  }

  /** Everything a complete collection from a root promises: the modules of the graph reached from the root, once
      each, the root last, and each module after those of its dependencies that do not depend on it in turn. */
  ghost predicate Collected(world: Modules, root: Module, ms: seq<Module>) {
    && ms != [] && ms[|ms| - 1] == root
    && DistinctIds(ms)
    && (forall p :: 0 <= p < |ms| ==> ms[p].id in world && ms[p] == world[ms[p].id])
    && (forall x :: x in Ids(ms) <==> Reaches(world, root.id, x))
    && (forall p, d :: 0 <= p < |ms| && d in ms[p].dependencies && d in world ==> BeforeOrCyclic(world, ms, p, d))
  }

  lemma {:induction false} ReachedAreListed(world: Modules, ms: seq<Module>, p: seq<ModuleId>)
    requires Path(world, p) && p[0] in Ids(ms)
    requires forall k :: 0 <= k < |ms| ==> ms[k].id in world && ms[k] == world[ms[k].id]
    requires forall k, d :: 0 <= k < |ms| && d in ms[k].dependencies && d in world ==> d in Ids(ms)
    ensures p[|p| - 1] in Ids(ms)
    decreases |p|
  {
    if |p| > 1 {
      var k :| 0 <= k < |ms| && ms[k].id == p[0];
      assert Edge(world, p[0], p[0 + 1]);
      var rest := p[1..];
      assert Path(world, rest) by {
        forall j | 0 <= j < |rest| - 1 ensures Edge(world, rest[j], rest[j + 1]) {
          assert Edge(world, p[j + 1], p[j + 1 + 1]);
        }
      }
      ReachedAreListed(world, ms, rest);
    }
  }

  /** `collect_modules` */
  method CollectModules(store: Modules, root: Module) returns (ordered: seq<Module>)
    ensures Faithful(store) ==> Collected(World(store, root), root, ordered)
  {
    ghost var visited;
    visited, ordered := CollectModulesRec(store, root, root, {}, []);
    if Faithful(store) {
      ghost var world := World(store, root);
      forall x | x in visited ensures x in Ids(ordered) {
        assert x in visited - Ids(ordered) || x in Ids(ordered);
      }
      assert ordered[|ordered| - 1].id in Ids(ordered);
      forall x ensures x in Ids(ordered) <==> Reaches(world, root.id, x) {
        if x in Ids(ordered) {
          var k :| 0 <= k < |ordered| && ordered[k].id == x;
        }
        if Reaches(world, root.id, x) {
          var p :| Path(world, p) && p[0] == root.id && p[|p| - 1] == x;
          ReachedAreListed(world, ordered, p);
        }
      }
    }
  }

  // ----- dependency order

  ghost predicate DependenciesFirst(world: Modules, ms: seq<Module>) {
    forall p, d :: 0 <= p < |ms| && d in ms[p].dependencies && d in world ==> d in Ids(ms[..p])
  }

  /** No available module reached from the root depends, through others or not, on itself. */
  ghost predicate Acyclic(world: Modules, root: ModuleId) {
    forall a, b :: Reaches(world, root, a) && Edge(world, a, b) ==> !Reaches(world, b, a)
  }

  ghost function IndexOf(ms: seq<Module>, x: ModuleId): (k: nat)
    requires x in Ids(ms)
    ensures k < |ms| && ms[k].id == x
  {
    var k :| 0 <= k < |ms| && ms[k].id == x;
    k
  }

  /** In dependency order, nothing is reached from an earlier module that comes later. */
  lemma {:induction false} PathGoesBack(world: Modules, root: Module, ms: seq<Module>, p: seq<ModuleId>)
    requires Collected(world, root, ms) && DependenciesFirst(world, ms) && Path(world, p) && p[0] in Ids(ms)
    ensures p[|p| - 1] in Ids(ms) && IndexOf(ms, p[|p| - 1]) <= IndexOf(ms, p[0])
    decreases |p|
  {
    if |p| > 1 {
      EdgeGoesBack(world, root, ms, p[0], p[0 + 1]);
      var rest := p[1..];
      assert Path(world, rest) by {
        forall j | 0 <= j < |rest| - 1 ensures Edge(world, rest[j], rest[j + 1]) {
          assert Edge(world, p[j + 1], p[j + 1 + 1]);
        }
      }
      PathGoesBack(world, root, ms, rest);
    }
  }

  lemma {:induction false} EdgeGoesBack(world: Modules, root: Module, ms: seq<Module>, a: ModuleId, b: ModuleId)
    requires Collected(world, root, ms) && DependenciesFirst(world, ms) && a in Ids(ms) && Edge(world, a, b)
    ensures b in Ids(ms) && IndexOf(ms, b) < IndexOf(ms, a)
  {
    var i := IndexOf(ms, a);
    assert b in Ids(ms[..i]);
    var j :| 0 <= j < |ms[..i]| && ms[..i][j].id == b;
    assert ms[j].id == b;
    var k := IndexOf(ms, b);
    assert k == j;
  }

  /** The collected order puts every module after all its available dependencies exactly when the part of the
      dependency graph reached from the root has no cycle. */
  lemma {:induction false} OrderedIffAcyclic(world: Modules, root: Module, ms: seq<Module>)
    requires Collected(world, root, ms)
    ensures DependenciesFirst(world, ms) <==> Acyclic(world, root.id)
  {
    if DependenciesFirst(world, ms) {
      forall a, b | Reaches(world, root.id, a) && Edge(world, a, b) ensures !Reaches(world, b, a) {
        EdgeGoesBack(world, root, ms, a, b);
        if Reaches(world, b, a) {
          var p :| Path(world, p) && p[0] == b && p[|p| - 1] == a;
          PathGoesBack(world, root, ms, p);
        }
      }
    }
    if Acyclic(world, root.id) {
      forall p, d | 0 <= p < |ms| && d in ms[p].dependencies && d in world ensures d in Ids(ms[..p]) {
        assert ms[p].id in Ids(ms);
        assert Edge(world, ms[p].id, d);
        assert BeforeOrCyclic(world, ms, p, d);
      }
    }
  }
}
