/** What the depth-first search for a cycle to report finds, in terms of the dependency graph. */
module LoaderSearch {
  import opened LoaderGraph

  /** A route from `from`: at each vertex, which dependency is taken. It only passes vertices of the
      graph, and it ends at `to` when it gets there. */
  predicate IsRoute(g: Graph, from: Id, to: Id, q: seq<nat>)
    decreases |q|
  {
    q == [] || (from in g && from != to && q[0] < |g[from]| && IsRoute(g, DepId(g[from][q[0]]), to, q[1..]))
  }

  function RouteEnd(g: Graph, from: Id, to: Id, q: seq<nat>): Id
    requires IsRoute(g, from, to, q)
    decreases |q|
  {
    if q == [] then from else RouteEnd(g, DepId(g[from][q[0]]), to, q[1..])
  }

  /** The route arrives, or is as long as the search goes. */
  predicate Arrives(g: Graph, from: Id, to: Id, limit: nat, q: seq<nat>) {
    IsRoute(g, from, to, q) && |q| <= limit && (RouteEnd(g, from, to, q) == to || |q| == limit)
  }

  /** The route meets a module that is defined and no longer in the graph: a completed one. */
  predicate MeetsCompleted(g: Graph, defined: set<Id>, from: Id, to: Id, limit: nat, q: seq<nat>) {
    && IsRoute(g, from, to, q) && |q| < limit
    && var x := RouteEnd(g, from, to, q); x != to && x in defined && x !in g
  }

  predicate Stops(g: Graph, defined: set<Id>, from: Id, to: Id, limit: nat, q: seq<nat>) {
    Arrives(g, from, to, limit, q) || MeetsCompleted(g, defined, from, to, limit, q)
  }

  /** `q` takes an earlier dependency than `r` where they part. */
  predicate Earlier(q: seq<nat>, r: seq<nat>) {
    q != [] && r != [] && (q[0] < r[0] || (q[0] == r[0] && Earlier(q[1..], r[1..])))
  }

  /** Of all routes that stop, `q` is the one a depth-first search walks first. */
  ghost predicate StopsFirst(g: Graph, defined: set<Id>, from: Id, to: Id, limit: nat, q: seq<nat>) {
    && Stops(g, defined, from, to, limit, q)
    && forall r :: Stops(g, defined, from, to, limit, r) && r != q ==> Earlier(q, r)
  }

  /** The same for routes that begin with the `j`-th dependency of `from` or a later one. */
  ghost predicate StopsFirstFrom(g: Graph, defined: set<Id>, from: Id, to: Id, limit: nat, j: nat, q: seq<nat>) {
    && Stops(g, defined, from, to, limit, q) && q != [] && q[0] >= j
    && forall r :: Stops(g, defined, from, to, limit, r) && r != [] && r[0] >= j && r != q ==> Earlier(q, r)
  }

  /** A route is its first choice and a route from there. */
  lemma StopsTail(g: Graph, defined: set<Id>, from: Id, to: Id, limit: nat, q: seq<nat>)
    requires from in g && from != to && 0 < limit && q != [] && q[0] < |g[from]|
    ensures var next := DepId(g[from][q[0]]);
            && Arrives(g, from, to, limit, q) == Arrives(g, next, to, limit - 1, q[1..])
            && MeetsCompleted(g, defined, from, to, limit, q) == MeetsCompleted(g, defined, next, to, limit - 1, q[1..])
  {
  }

  lemma RouteStarts(g: Graph, from: Id, to: Id, q: seq<nat>)
    requires IsRoute(g, from, to, q) && q != []
    ensures from in g && from != to && q[0] < |g[from]|
  {
  }

  /** What a search result says about the routes. */
  ghost predicate Explains(g: Graph, defined: set<Id>, from: Id, to: Id, limit: nat, q: seq<nat>, r: Search) {
    match r
    case Missing => forall p :: !Stops(g, defined, from, to, limit, p)
    case Found => StopsFirst(g, defined, from, to, limit, q) && Arrives(g, from, to, limit, q)
    case Crash => StopsFirst(g, defined, from, to, limit, q) && MeetsCompleted(g, defined, from, to, limit, q)
  }

  /** Some route explains the result. */
  ghost predicate Explained(g: Graph, defined: set<Id>, from: Id, to: Id, limit: nat, r: Search) {
    exists q :: Explains(g, defined, from, to, limit, q, r)
  }

  ghost predicate ExplainsFrom(g: Graph, defined: set<Id>, from: Id, to: Id, limit: nat, j: nat, q: seq<nat>,
                               r: Search) {
    match r
    case Missing => forall p :: Stops(g, defined, from, to, limit, p) && p != [] ==> p[0] < j
    case Found => StopsFirstFrom(g, defined, from, to, limit, j, q) && Arrives(g, from, to, limit, q)
    case Crash => StopsFirstFrom(g, defined, from, to, limit, j, q) && MeetsCompleted(g, defined, from, to, limit, q)
  }

  /** The search finds what the first route that stops finds. */
  lemma {:induction false} SearchWalksFirstRoute(g: Graph, defined: set<Id>, from: Id, to: Id, depth: nat)
    returns (q: seq<nat>)
    requires depth <= 50 && g.Keys <= defined
    ensures Explains(g, defined, from, to, 50 - depth, q, CycleSearch(g, defined, from, to, depth))
    decreases 50 - depth, 0
  {
    q := [];
    var limit := 50 - depth;
    if from == to || depth == 50 {
      OnlyHere(g, defined, from, to, limit);
    } else if from !in g {
      OnlyHere(g, defined, from, to, limit);
    } else {
      var deps := g[from];
      assert deps[0..] == deps;
      q := DepsWalkFirstRoute(g, defined, from, to, depth, 0);
      FromTheStart(g, defined, from, to, limit, q, CycleSearch(g, defined, from, to, depth));
    }
  }

  /** At the target, at the depth limit or outside the graph there is no way on. */
  lemma OnlyHere(g: Graph, defined: set<Id>, from: Id, to: Id, limit: nat)
    requires from == to || limit == 0 || from !in g
    ensures forall p :: Stops(g, defined, from, to, limit, p) ==> p == []
  {
    forall p | Stops(g, defined, from, to, limit, p)
      ensures p == []
    {
      if p != [] {
        RouteStarts(g, from, to, p);
      }
    }
  }

  lemma FromTheStart(g: Graph, defined: set<Id>, from: Id, to: Id, limit: nat, q: seq<nat>, r: Search)
    requires from in g && from != to && 0 < limit && ExplainsFrom(g, defined, from, to, limit, 0, q, r)
    ensures Explains(g, defined, from, to, limit, q, r)
  {
    assert !Stops(g, defined, from, to, limit, []);
  }

  lemma {:induction false} DepsWalkFirstRoute(g: Graph, defined: set<Id>, from: Id, to: Id, depth: nat, j: nat)
    returns (q: seq<nat>)
    requires depth < 50 && g.Keys <= defined && from in g && from != to && j <= |g[from]|
    ensures ExplainsFrom(g, defined, from, to, 50 - depth, j, q, SearchDeps(g, defined, g[from][j..], to, depth))
    decreases 50 - depth - 1, |g[from]| - j + 1
  {
    var limit, deps := 50 - depth, g[from];
    q := [];
    if j == |deps| {
      forall p | Stops(g, defined, from, to, limit, p) && p != []
        ensures p[0] < j
      {
        RouteStarts(g, from, to, p);
      }
    } else {
      var rest := deps[j..];
      assert rest[0] == deps[j] && rest[1..] == deps[j + 1..];
      var next := DepId(deps[j]);
      var r := CycleSearch(g, defined, next, to, depth + 1);
      var t := SearchWalksFirstRoute(g, defined, next, to, depth + 1);
      hide CycleSearch, SearchDeps, Stops, Arrives, MeetsCompleted, IsRoute;
      if r == Missing {
        q := DepsWalkFirstRoute(g, defined, from, to, depth, j + 1);
        NoneAt(g, defined, from, to, limit, j, next, q, SearchDeps(g, defined, deps[j + 1..], to, depth));
      } else {
        q := [j] + t;
        FirstAt(g, defined, from, to, limit, j, t, r);
      }
    }
  }

  /** No route through the `j`-th dependency stops. */
  lemma NoneAt(g: Graph, defined: set<Id>, from: Id, to: Id, limit: nat, j: nat, next: Id, q: seq<nat>, r: Search)
    requires from in g && from != to && 0 < limit && j < |g[from]| && next == DepId(g[from][j])
    requires ExplainsFrom(g, defined, from, to, limit, j + 1, q, r)
    requires Explains(g, defined, next, to, limit - 1, [], Missing)
    ensures ExplainsFrom(g, defined, from, to, limit, j, q, r)
  {
    forall p | Stops(g, defined, from, to, limit, p) && p != []
      ensures p[0] != j
    {
      RouteStarts(g, from, to, p);
      StopsTail(g, defined, from, to, limit, p);
      assert p[0] == j ==> Stops(g, defined, next, to, limit - 1, p[1..]);
    }
    hide Stops, Arrives, MeetsCompleted, Earlier;
  }

  /** The first route from the `j`-th dependency is the first from there on. */
  lemma FirstAt(g: Graph, defined: set<Id>, from: Id, to: Id, limit: nat, j: nat, t: seq<nat>, r: Search)
    requires from in g && from != to && 0 < limit && j < |g[from]| && r != Missing
    requires Explains(g, defined, DepId(g[from][j]), to, limit - 1, t, r)
    ensures ExplainsFrom(g, defined, from, to, limit, j, [j] + t, r)
  {
    var q, next := [j] + t, DepId(g[from][j]);
    assert q[1..] == t;
    StopsTail(g, defined, from, to, limit, q);
    forall p | Stops(g, defined, from, to, limit, p) && p != [] && p[0] >= j && p != q
      ensures Earlier(q, p)
    {
      RouteStarts(g, from, to, p);
      if p[0] == j {
        StopsTail(g, defined, from, to, limit, p);
        assert p == [j] + p[1..];
        assert Stops(g, defined, next, to, limit - 1, p[1..]);
      }
    }
  }

  lemma SearchIsExplained(g: Graph, defined: set<Id>, from: Id, to: Id, depth: nat)
    requires depth <= 50 && g.Keys <= defined
    ensures Explained(g, defined, from, to, 50 - depth, CycleSearch(g, defined, from, to, depth))
  {
    var q := SearchWalksFirstRoute(g, defined, from, to, depth);
  }

  // ----- what follows for a caller -----

  ghost predicate CompletedFirst(g: Graph, defined: set<Id>, from: Id, to: Id) {
    exists q :: StopsFirst(g, defined, from, to, 50, q) && MeetsCompleted(g, defined, from, to, 50, q)
  }

  ghost predicate ArrivesFirst(g: Graph, defined: set<Id>, from: Id, to: Id) {
    exists q :: StopsFirst(g, defined, from, to, 50, q) && Arrives(g, from, to, 50, q)
  }

  /** A route cannot both arrive and meet a completed module, and the first route is unique. */
  lemma OneFirst(g: Graph, defined: set<Id>, from: Id, to: Id)
    ensures !(CompletedFirst(g, defined, from, to) && ArrivesFirst(g, defined, from, to))
  {
    forall q, r | StopsFirst(g, defined, from, to, 50, q) && MeetsCompleted(g, defined, from, to, 50, q)
               && StopsFirst(g, defined, from, to, 50, r) && Arrives(g, from, to, 50, r)
      ensures false
    {
      EarlierOneWay(q, r);
    }
  }

  lemma {:induction false} EarlierOneWay(q: seq<nat>, r: seq<nat>)
    requires Earlier(q, r)
    ensures !Earlier(r, q) && q != r
  {
    if q[0] == r[0] {
      EarlierOneWay(q[1..], r[1..]);
    }
  }

  /** The three results of the search, said about the graph. */
  lemma SearchMeans(g: Graph, defined: set<Id>, from: Id, to: Id)
    requires g.Keys <= defined
    ensures var r := CycleSearch(g, defined, from, to, 0);
            && (r == Crash <==> CompletedFirst(g, defined, from, to))
            && (r == Found <==> ArrivesFirst(g, defined, from, to))
            && (r == Missing <==> forall q :: !Stops(g, defined, from, to, 50, q))
  {
    hide CycleSearch, Stops, Arrives, MeetsCompleted, Earlier;
    var q := SearchWalksFirstRoute(g, defined, from, to, 0);
    OneFirst(g, defined, from, to);
  }

  /** Where there is a path, something stops the search. */
  lemma {:induction false} PathIsNotMissed(g: Graph, defined: set<Id>, p: seq<Id>, to: Id, depth: nat)
    requires depth <= 50 && |p| > 0 && p[|p| - 1] == to && g.Keys <= defined
    requires forall i :: 0 <= i < |p| - 1 ==> Step(g, p[i], p[i + 1])
    ensures CycleSearch(g, defined, p[0], to, depth) != Missing
    decreases |p|
  {
    if p[0] != to && depth < 50 {
      assert Step(g, p[0], p[0 + 1]);
      var k :| 0 <= k < |g[p[0]]| && DepId(g[p[0]][k]) == p[1];
      var rest := p[1..];
      forall i | 0 <= i < |rest| - 1
        ensures Step(g, rest[i], rest[i + 1])
      {
        assert Step(g, p[i + 1], p[i + 1 + 1]);
      }
      PathIsNotMissed(g, defined, rest, to, depth + 1);
      DepIsNotMissed(g, defined, g[p[0]], to, depth, k);
    }
  }

  lemma {:induction false} DepIsNotMissed(g: Graph, defined: set<Id>, deps: seq<Dep>, to: Id, depth: nat, k: nat)
    requires depth < 50 && k < |deps| && CycleSearch(g, defined, DepId(deps[k]), to, depth + 1) != Missing
    ensures SearchDeps(g, defined, deps, to, depth) != Missing
    decreases k
  {
    if k > 0 {
      assert deps[1..][k - 1] == deps[k];
      DepIsNotMissed(g, defined, deps[1..], to, depth, k - 1);
    }
  }

  /** A route leads where the graph leads. */
  lemma {:induction false} RouteReaches(g: Graph, from: Id, to: Id, q: seq<nat>)
    requires IsRoute(g, from, to, q)
    ensures RouteEnd(g, from, to, q) == from || Reaches(g, from, RouteEnd(g, from, to, q))
    decreases |q|
  {
    if q != [] {
      var next := DepId(g[from][q[0]]);
      assert Step(g, from, next);
      RouteReaches(g, next, to, q[1..]);
      ReachesFirst(g, from, next, RouteEnd(g, from, to, q));
    }
  }

  lemma ReachesFirst(g: Graph, a: Id, b: Id, c: Id)
    requires Step(g, a, b) && (b == c || Reaches(g, b, c))
    ensures Reaches(g, a, c)
  {
    if b == c {
      assert DepPath([a, c], g, a, c);
    } else {
      var p :| DepPath(p, g, b, c);
      var q := [a] + p;
      forall i | 0 <= i < |q| - 1
        ensures Step(g, q[i], q[i + 1])
      {
        if i > 0 {
          assert Step(g, p[i - 1], p[i - 1 + 1]);
        }
      }
      assert DepPath(q, g, a, c);
    }
  }

  /** Where a cycle exists the search prints it or meets a completed module, which is then reachable
      over pending dependencies. */
  lemma CrashNeedsCompleted(g: Graph, defined: set<Id>, from: Id, to: Id)
    requires CompletedFirst(g, defined, from, to)
    ensures exists x :: x in defined && x !in g && (x == from || Reaches(g, from, x))
  {
    var q :| StopsFirst(g, defined, from, to, 50, q) && MeetsCompleted(g, defined, from, to, 50, q);
    RouteReaches(g, from, to, q);
  }
}
