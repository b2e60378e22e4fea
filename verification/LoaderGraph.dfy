/** Modules, their dependencies, and the waits between them, as graphs. */
module LoaderGraph {

  type Id = nat

  /** A dependency: one of the three built-in names, or another module. */
  datatype Dep = Exports | ModuleObject | Require | Regular(id: Id)

  /** A defined module.  Completing it drops its dependency list. */
  datatype Module = Module(deps: seq<Dep>, count: int, complete: bool)

  /** A wait: `waiter` needs `target` first. */
  datatype Edge = Edge(waiter: Id, target: Id)

  type Modules = map<Id, Module>

  function DepId(d: Dep): Id {
    match d
    case Exports => 0
    case ModuleObject => 1
    case Require => 2
    case Regular(id) => id
  }

  // ----- outstanding waits -----

  /** How many waits a module has. */
  function CountFrom(edges: seq<Edge>, m: Id): nat {
    if edges == [] then 0
    else CountFrom(edges[..|edges| - 1], m) + if edges[|edges| - 1].waiter == m then 1 else 0
  }

  /** Who waits for `t`, in the order in which the waits began. */
  function Waiters(edges: seq<Edge>, t: Id): seq<Id> {
    if edges == [] then []
    else Waiters(edges[..|edges| - 1], t) + if edges[|edges| - 1].target == t then [edges[|edges| - 1].waiter] else []
  }

  /** The waits that are not for `t`. */
  function Without(edges: seq<Edge>, t: Id): seq<Edge> {
    if edges == [] then []
    else Without(edges[..|edges| - 1], t) + if edges[|edges| - 1].target == t then [] else [edges[|edges| - 1]]
  }

  lemma PushEdge(edges: seq<Edge>, e: Edge)
    ensures forall m :: CountFrom(edges + [e], m) == CountFrom(edges, m) + if e.waiter == m then 1 else 0
    ensures forall t :: Waiters(edges + [e], t) == Waiters(edges, t) + if e.target == t then [e.waiter] else []
  {
    assert (edges + [e])[..|edges + [e]| - 1] == edges;
  }

  lemma {:induction false} WithoutKeeps(edges: seq<Edge>, t: Id)
    ensures forall e :: e in Without(edges, t) <==> e in edges && e.target != t
  {
    if edges != [] {
      WithoutKeeps(edges[..|edges| - 1], t);
      assert forall e :: e in edges <==> e in edges[..|edges| - 1] || e == edges[|edges| - 1];
    }
  }

  lemma {:induction false} WithoutWaiters(edges: seq<Edge>, t: Id, s: Id)
    ensures Waiters(Without(edges, t), s) == if s == t then [] else Waiters(edges, s)
  {
    if edges != [] {
      var rest, e := edges[..|edges| - 1], edges[|edges| - 1];
      WithoutWaiters(rest, t, s);
      PushEdge(Without(rest, t), e);
      assert Without(edges, t) == if e.target == t then Without(rest, t) else Without(rest, t) + [e];
      assert Waiters(rest, s) + [] == Waiters(rest, s);
    }
  }

  /** Dropping the waits for `t` leaves each module short by the times it waits for `t`. */
  lemma {:induction false} WithoutCounts(edges: seq<Edge>, t: Id, m: Id)
    ensures CountFrom(edges, m) == CountFrom(Without(edges, t), m) + multiset(Waiters(edges, t))[m]
  {
    if edges != [] {
      var rest, e := edges[..|edges| - 1], edges[|edges| - 1];
      WithoutCounts(rest, t, m);
      PushEdge(Without(rest, t), e);
      assert Without(edges, t) == if e.target == t then Without(rest, t) else Without(rest, t) + [e];
      assert Waiters(edges, t) == Waiters(rest, t) + if e.target == t then [e.waiter] else [];
    }
  }

  lemma {:induction false} CountedEdge(edges: seq<Edge>, m: Id) returns (e: Edge)
    requires CountFrom(edges, m) > 0
    ensures e in edges && e.waiter == m
  {
    e := edges[|edges| - 1];
    if e.waiter != m {
      e := CountedEdge(edges[..|edges| - 1], m);
    }
  }

  lemma {:induction false} EdgeIsCounted(edges: seq<Edge>, e: Edge)
    requires e in edges
    ensures CountFrom(edges, e.waiter) > 0
  {
    if edges[|edges| - 1] != e {
      assert e in edges[..|edges| - 1];
      EdgeIsCounted(edges[..|edges| - 1], e);
    }
  }

  lemma {:induction false} WaiterHasEdge(edges: seq<Edge>, t: Id, m: Id)
    requires m in Waiters(edges, t)
    ensures Edge(m, t) in edges
  {
    var rest, e := edges[..|edges| - 1], edges[|edges| - 1];
    if m in Waiters(rest, t) {
      WaiterHasEdge(rest, t, m);
    } else {
      assert e == Edge(m, t);
    }
  }

  // ----- paths -----

  /** A path in a graph given by its edges; a single vertex is a path too. */
  predicate Walk(p: seq<Id>, edges: seq<Edge>) {
    |p| > 0 && forall i :: 0 <= i < |p| - 1 ==> Edge(p[i], p[i + 1]) in edges
  }

  ghost predicate Acyclic(edges: seq<Edge>) {
    forall p :: Walk(p, edges) && |p| > 1 ==> p[0] != p[|p| - 1]
  }

  /** A dependency graph: what each vertex lists. */
  type Graph = map<Id, seq<Dep>>

  /** One dependency step: `a` lists `b`. */
  predicate Step(g: Graph, a: Id, b: Id) {
    a in g && exists k :: 0 <= k < |g[a]| && DepId(g[a][k]) == b
  }

  /** A path of dependencies, at least one step long. */
  predicate DepPath(p: seq<Id>, g: Graph, a: Id, b: Id) {
    |p| > 1 && p[0] == a && p[|p| - 1] == b && forall i :: 0 <= i < |p| - 1 ==> Step(g, p[i], p[i + 1])
  }

  ghost predicate Reaches(g: Graph, a: Id, b: Id) {
    exists p :: DepPath(p, g, a, b)
  }

  lemma ReachesMore(g: Graph, h: Graph, a: Id, b: Id)
    requires Reaches(g, a, b) && forall m :: m in g ==> m in h && h[m] == g[m]
    ensures Reaches(h, a, b)
  {
    var p :| DepPath(p, g, a, b);
    forall i | 0 <= i < |p| - 1
      ensures Step(h, p[i], p[i + 1])
    {
      assert Step(g, p[i], p[i + 1]);
    }
    assert DepPath(p, h, a, b);
  }

  lemma ReachesOn(g: Graph, a: Id, b: Id, c: Id)
    requires (a == b || Reaches(g, a, b)) && Step(g, b, c)
    ensures Reaches(g, a, c)
  {
    if a == b {
      assert DepPath([a, c], g, a, c);
    } else {
      var p :| DepPath(p, g, a, b);
      var q := p + [c];
      forall i | 0 <= i < |q| - 1
        ensures Step(g, q[i], q[i + 1])
      {
        if i < |p| - 1 {
          assert Step(g, p[i], p[i + 1]);
        }
      }
      assert DepPath(q, g, a, c);
    }
  }

  /** A set closed under steps that never step on `b` separates its members from `b`. */
  lemma ClosedSetAvoids(g: Graph, s: set<Id>, a: Id, b: Id)
    requires a in s
    requires forall x, y :: x in s && Step(g, x, y) ==> y != b && (y in g ==> y in s)
    ensures !Reaches(g, a, b)
  {
    forall p
      ensures !DepPath(p, g, a, b)
    {
      if DepPath(p, g, a, b) {
        assert Step(g, p[|p| - 2], p[|p| - 1]);
        PathStaysInside(p, g, s, a, b, |p| - 2);
      }
    }
  }

  lemma {:induction false} PathStaysInside(p: seq<Id>, g: Graph, s: set<Id>, a: Id, b: Id, i: nat)
    requires DepPath(p, g, a, b) && i < |p| - 1 && a in s
    requires forall x, y :: x in s && Step(g, x, y) ==> y != b && (y in g ==> y in s)
    ensures p[i] in s
  {
    if i > 0 {
      PathStaysInside(p, g, s, a, b, i - 1);
      assert Step(g, p[i - 1], p[i]) && Step(g, p[i], p[i + 1]);
    }
  }

  // ----- the search that describes a cycle -----

  /** What a depth-first search for the path to report ends in: it finds one (or gives up at depth
      50, which counts as one), finds none, or meets a completed module, whose dropped
      dependency list it then reads. */
  datatype Search = Found | Missing | Crash

  function CycleSearch(g: Graph, defined: set<Id>, from: Id, to: Id, depth: nat): Search
    requires depth <= 50
    decreases 50 - depth, 0
  {
    if from == to || depth == 50 then Found
    else if from !in defined then Missing
    else if from !in g then Crash
    else SearchDeps(g, defined, g[from], to, depth)
  }

  function SearchDeps(g: Graph, defined: set<Id>, deps: seq<Dep>, to: Id, depth: nat): Search
    requires depth < 50
    decreases 50 - depth - 1, |deps| + 1
  {
    if deps == [] then Missing
    else
      var r := CycleSearch(g, defined, DepId(deps[0]), to, depth + 1);
      if r != Missing then r else SearchDeps(g, defined, deps[1..], to, depth)
  }

  lemma {:induction false} LastDetour(w: seq<Id>, edges: seq<Edge>, e: Edge) returns (v: seq<Id>)
    requires Walk(w, edges + [e]) && w[0] == e.target && w[|w| - 1] == e.waiter
    ensures Walk(v, edges) && v[0] == e.target && v[|v| - 1] == e.waiter
    decreases |w|
  {
    if j :| 0 <= j < |w| - 1 && Edge(w[j], w[j + 1]) == e {
      v := LastDetour(w[j + 1..], edges, e);
    } else {
      v := w;
    }
  }

  /** A closed walk, started over behind its step `i`. */
  lemma Rotate(p: seq<Id>, edges: seq<Edge>, i: nat) returns (w: seq<Id>)
    requires Walk(p, edges) && i < |p| - 1 && p[0] == p[|p| - 1]
    ensures Walk(w, edges) && w[0] == p[i + 1] && w[|w| - 1] == p[i]
  {
    var n := |p| - 1 - i;
    w := p[i + 1..] + p[1..i + 1];
    assert |w| == n + i;
    forall k | 0 <= k < |w| - 1
      ensures Edge(w[k], w[k + 1]) in edges
    {
      if k < n - 1 {
        assert w[k] == p[i + 1 + k] && w[k + 1] == p[i + 1 + k + 1];
      } else {
        assert w[k] == p[k - n + 1] && w[k + 1] == p[k - n + 1 + 1];
      }
    }
  }

  /** Adding a wait to an acyclic graph closes a cycle only if its target already leads back. */
  lemma NewEdgeStaysAcyclic(edges: seq<Edge>, e: Edge)
    requires Acyclic(edges)
    requires forall w :: Walk(w, edges) && w[0] == e.target ==> w[|w| - 1] != e.waiter
    ensures Acyclic(edges + [e])
  {
    forall p | Walk(p, edges + [e]) && |p| > 1
      ensures p[0] != p[|p| - 1]
    {
      if p[0] == p[|p| - 1] {
        var w := OldCycle(p, edges, e);
      }
    }
  }

  lemma OldCycle(p: seq<Id>, edges: seq<Edge>, e: Edge) returns (w: seq<Id>)
    requires Walk(p, edges + [e]) && |p| > 1 && p[0] == p[|p| - 1]
    ensures Walk(w, edges)
    ensures (|w| > 1 && w[0] == w[|w| - 1]) || (w[0] == e.target && w[|w| - 1] == e.waiter)
  {
    if i :| 0 <= i < |p| - 1 && Edge(p[i], p[i + 1]) == e {
      w := Rotate(p, edges + [e], i);
      w := LastDetour(w, edges, e);
    } else {
      w := p;
    }
  }

  lemma FewerEdgesStayAcyclic(edges: seq<Edge>, fewer: seq<Edge>)
    requires Acyclic(edges) && forall e :: e in fewer ==> e in edges
    ensures Acyclic(fewer)
  {
    forall p | Walk(p, fewer) && |p| > 1
      ensures p[0] != p[|p| - 1]
    {
      assert Walk(p, edges);
    }
  }

  // ----- a finite set whose members all wait inside it has a cycle -----

  predicate NoRepeats(p: seq<Id>) {
    forall i, j :: 0 <= i < j < |p| ==> p[i] != p[j]
  }

  lemma {:induction false} NoRepeatsFits(p: seq<Id>, s: set<Id>)
    requires NoRepeats(p) && Inside(p, s)
    ensures |p| <= |s|
    decreases |p|
  {
    if p != [] {
      var last := p[|p| - 1];
      NoRepeatsFits(p[..|p| - 1], s - {last});
    }
  }

  lemma {:induction false} ClosedSetHasCycle(edges: seq<Edge>, s: set<Id>, p: seq<Id>)
    requires Walk(p, edges) && NoRepeats(p) && Inside(p, s) && Closed(edges, s)
    ensures !Acyclic(edges)
    decreases |s| - |p|
  {
    hide Walk, NoRepeats, Acyclic, Inside, Closed;
    var e := WalkGoesOn(p, edges, s);
    if e.target in p {
      WalkCloses(p, edges, e.target);
    } else {
      OneMore(p, e.target);
      InsideOn(p, e.target, s);
      NoRepeatsFits(p + [e.target], s);
      ClosedSetHasCycle(edges, s, p + [e.target]);
    }
  }

  ghost predicate Inside(p: seq<Id>, s: set<Id>) {
    forall x :: x in p ==> x in s
  }

  /** Every member of `s` waits for a member of `s`. */
  ghost predicate Closed(edges: seq<Edge>, s: set<Id>) {
    forall x :: x in s ==> WaitsIn(edges, s, x)
  }

  ghost predicate WaitsIn(edges: seq<Edge>, s: set<Id>, x: Id) {
    exists e :: e in edges && e.waiter == x && e.target in s
  }

  lemma WalkGoesOn(p: seq<Id>, edges: seq<Edge>, s: set<Id>) returns (e: Edge)
    requires Walk(p, edges) && Inside(p, s) && Closed(edges, s)
    ensures e.target in s && Walk(p + [e.target], edges)
  {
    hide WaitsIn, Walk;
    WalkIsNotEmpty(p, edges);
    var last := p[|p| - 1];
    assert last in p;
    e := NextWait(edges, s, last);
    WalkOn(p, edges, e);
  }

  lemma NextWait(edges: seq<Edge>, s: set<Id>, x: Id) returns (e: Edge)
    requires WaitsIn(edges, s, x)
    ensures e in edges && e.waiter == x && e.target in s
  {
    e :| e in edges && e.waiter == x && e.target in s;
  }

  lemma WalkIsNotEmpty(p: seq<Id>, edges: seq<Edge>)
    requires Walk(p, edges)
    ensures |p| > 0
  {
  }

  lemma WalkCloses(p: seq<Id>, edges: seq<Edge>, x: Id)
    requires Walk(p + [x], edges) && x in p
    ensures !Acyclic(edges)
  {
    var q := p + [x];
    var k :| 0 <= k < |p| && p[k] == x;
    WalkTail(q, edges, k);
    var cycle := q[k..];
    assert cycle[0] == cycle[|cycle| - 1] && |cycle| > 1;
  }

  lemma OneMore(p: seq<Id>, x: Id)
    requires NoRepeats(p) && x !in p
    ensures NoRepeats(p + [x])
  {
  }

  lemma InsideOn(p: seq<Id>, x: Id, s: set<Id>)
    requires Inside(p, s) && x in s
    ensures Inside(p + [x], s)
  {
  }

  lemma WalkOn(p: seq<Id>, edges: seq<Edge>, e: Edge)
    requires Walk(p, edges) && e in edges && e.waiter == p[|p| - 1]
    ensures Walk(p + [e.target], edges)
  {
    var q := p + [e.target];
    forall i | 0 <= i < |q| - 1
      ensures Edge(q[i], q[i + 1]) in edges
    {
      if i == |p| - 1 {
        assert Edge(q[i], q[i + 1]) == e;
      } else {
        assert Edge(p[i], p[i + 1]) in edges;
      }
    }
  }

  lemma WalkTail(p: seq<Id>, edges: seq<Edge>, k: nat)
    requires Walk(p, edges) && k < |p|
    ensures Walk(p[k..], edges)
  {
    var q := p[k..];
    forall i | 0 <= i < |q| - 1
      ensures Edge(q[i], q[i + 1]) in edges
    {
      assert Edge(p[k + i], p[k + i + 1]) in edges;
    }
  }
}
