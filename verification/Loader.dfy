/** The module manager: definitions, waits, completion. */
module Loader {
  import opened LoaderGraph
  import opened LoaderSearch

  /** Everything the manager knows, with what its invariants need to remember: the dependency
      lists as defined, the waits in order, the waits given up on cycles, the completion order. */
  datatype View = View(
    modules: Modules,
    inverse: map<Id, seq<Id>>,
    edges: seq<Edge>,
    broken: set<Edge>,
    orig: Graph,
    log: seq<Id>)

  /** The dependency lists of the modules that are not complete. */
  function Pending(modules: Modules): Graph {
    map m | m in modules && !modules[m].complete :: modules[m].deps
  }

  ghost predicate IsComplete(modules: Modules, m: Id) {
    m in modules && modules[m].complete
  }

  /** `m` need no longer look at its dependency `d`. */
  ghost predicate Settled(v: View, m: Id, d: Id) {
    IsComplete(v.modules, d) || Edge(m, d) in v.edges || Edge(m, d) in v.broken
  }

  ghost predicate Lists(deps: seq<Dep>, d: Id) {
    Regular(d) in deps
  }

  // ----- the invariant, clause by clause -----

  ghost predicate DepsKept(v: View) {
    v.orig.Keys == v.modules.Keys &&
    forall m :: m in v.modules ==> v.modules[m].deps == if v.modules[m].complete then [] else v.orig[m]
  }

  ghost predicate InverseExact(v: View) {
    forall t :: (if t in v.inverse then v.inverse[t] else []) == Waiters(v.edges, t)
  }

  /** A module's counter is its waits, plus its dependencies not looked at yet (`open`), plus its
      waits that have ended but are not yet counted down (`due`). */
  ghost predicate CountsExact(v: View, open: multiset<Id>, due: multiset<Id>) {
    forall m :: m in v.modules ==> v.modules[m].count == CountFrom(v.edges, m) + open[m] + due[m]
  }

  ghost predicate EdgesLive(v: View) {
    forall e :: e in v.edges ==>
      && e.waiter in v.modules && !v.modules[e.waiter].complete
      && e.waiter in v.orig && Lists(v.orig[e.waiter], e.target) && !IsComplete(v.modules, e.target)
  }

  ghost predicate DebtsLive(v: View, open: multiset<Id>, due: multiset<Id>) {
    forall m :: m in open || m in due ==> m in v.modules && !v.modules[m].complete
  }

  ghost predicate LogExact(v: View) {
    NoRepeats(v.log) && forall m :: m in v.log <==> IsComplete(v.modules, m)
  }

  ghost predicate AllSettled(v: View, open: multiset<Id>) {
    forall m, d :: m in v.modules && m in v.orig && m !in open && Lists(v.orig[m], d) ==> Settled(v, m, d)
  }

  /** A module completes after all its dependencies, except those given up on a cycle. */
  ghost predicate LogOrdered(v: View) {
    forall i, d :: 0 <= i < |v.log| && v.log[i] in v.orig && Lists(v.orig[v.log[i]], d) ==>
      d in v.log[..i] || Edge(v.log[i], d) in v.broken
  }

  /** A wait is only given up when the dependency itself depends on the waiter. */
  ghost predicate BrokenOnCycles(v: View) {
    forall e :: e in v.broken ==> Reaches(v.orig, e.target, e.waiter)
  }

  ghost predicate Inv(v: View, open: multiset<Id>, due: multiset<Id>) {
    && DepsKept(v) && InverseExact(v) && CountsExact(v, open, due) && EdgesLive(v)
    && DebtsLive(v, open, due) && LogExact(v) && AllSettled(v, open) && LogOrdered(v)
    && BrokenOnCycles(v) && Acyclic(v.edges)
  }

  /** Nobody but `m` is at zero without being complete. */
  ghost predicate NoneReadyBut(v: View, m: Id) {
    forall x :: x in v.modules && !v.modules[x].complete && x != m ==> v.modules[x].count > 0
  }

  ghost predicate NoneReady(v: View) {
    forall x :: x in v.modules && !v.modules[x].complete ==> v.modules[x].count > 0
  }

  // ----- a module completes -----

  ghost function Completed(v: View, m: Id): View
    requires m in v.modules
  {
    v.(modules := v.modules[m := Module([], v.modules[m].count, true)],
       inverse := v.inverse - {m},
       edges := Without(v.edges, m),
       log := v.log + [m])
  }

  ghost function WaitersOf(v: View, m: Id): seq<Id> {
    if m in v.inverse then v.inverse[m] else []
  }

  lemma NoEdgesFrom(v: View, open: multiset<Id>, due: multiset<Id>, m: Id)
    requires Inv(v, open, due) && m in v.modules && v.modules[m].count == 0
    ensures m !in open && m !in due && forall e :: e in v.edges ==> e.waiter != m
  {
    assert v.modules[m].count == CountFrom(v.edges, m) + open[m] + due[m];
    forall e | e in v.edges
      ensures e.waiter != m
    {
      EdgeIsCounted(v.edges, e);
    }
  }

  lemma CompletedCounts(v: View, open: multiset<Id>, due: multiset<Id>, m: Id)
    requires Inv(v, open, due) && m in v.modules && !v.modules[m].complete && v.modules[m].count == 0
    ensures var u := WaitersOf(v, m);
            InverseExact(Completed(v, m)) && CountsExact(Completed(v, m), open, due + multiset(u))
  {
    var v', u := Completed(v, m), WaitersOf(v, m);
    assert u == Waiters(v.edges, m);
    forall t
      ensures (if t in v'.inverse then v'.inverse[t] else []) == Waiters(v'.edges, t)
    {
      WithoutWaiters(v.edges, m, t);
      assert (if t in v.inverse then v.inverse[t] else []) == Waiters(v.edges, t);
    }
    forall x | x in v'.modules
      ensures v'.modules[x].count == CountFrom(v'.edges, x) + open[x] + (due + multiset(u))[x]
    {
      WithoutCounts(v.edges, m, x);
      assert v.modules[x].count == CountFrom(v.edges, x) + open[x] + due[x];
    }
  }

  lemma CompletedRest(v: View, open: multiset<Id>, due: multiset<Id>, m: Id)
    requires Inv(v, open, due) && m in v.modules && !v.modules[m].complete && v.modules[m].count == 0
    ensures var v', u := Completed(v, m), WaitersOf(v, m);
            && EdgesLive(v') && DebtsLive(v', open, due + multiset(u)) && Acyclic(v'.edges)
            && DepsKept(v') && BrokenOnCycles(v')
  {
    var v', u := Completed(v, m), WaitersOf(v, m);
    NoEdgesFrom(v, open, due, m);
    WithoutKeeps(v.edges, m);
    FewerEdgesStayAcyclic(v.edges, v'.edges);
    assert u == Waiters(v.edges, m);
    forall x | x in due + multiset(u)
      ensures x in v'.modules && !v'.modules[x].complete
    {
      if x in u {
        WaiterHasEdge(v.edges, m, x);
        assert Edge(x, m) in v.edges;
      }
    }
    assert v'.orig.Keys == v'.modules.Keys;
  }

  lemma CompletedLog(v: View, open: multiset<Id>, due: multiset<Id>, m: Id)
    requires Inv(v, open, due) && m in v.modules && !v.modules[m].complete && v.modules[m].count == 0
    ensures var v' := Completed(v, m);
            LogExact(v') && AllSettled(v', open) && LogOrdered(v')
  {
    hide AllSettled, LogOrdered, LogExact, DepsKept, InverseExact, CountsExact, EdgesLive, DebtsLive, BrokenOnCycles,
      Acyclic, Completed;
    NoEdgesFrom(v, open, due, m);
    LogGrows(v, m);
    CompletedSettled(v, open, m);
    CompletedOrdered(v, open, m);
  }

  lemma LogGrows(v: View, m: Id)
    requires LogExact(v) && m in v.modules && !v.modules[m].complete
    ensures LogExact(Completed(v, m))
  {
    var v' := Completed(v, m);
    assert m !in v.log;
    assert forall x :: x in v'.log <==> x in v.log || x == m;
  }

  lemma CompletedSettled(v: View, open: multiset<Id>, m: Id)
    requires AllSettled(v, open) && m in v.modules
    ensures AllSettled(Completed(v, m), open)
  {
    var v' := Completed(v, m);
    WithoutKeeps(v.edges, m);
    forall x, d | x in v'.modules && x in v'.orig && x !in open && Lists(v'.orig[x], d)
      ensures Settled(v', x, d)
    {
      assert Settled(v, x, d);
    }
  }

  lemma CompletedOrdered(v: View, open: multiset<Id>, m: Id)
    requires LogOrdered(v) && LogExact(v) && AllSettled(v, open) && m in v.modules && m !in open
    requires forall e :: e in v.edges ==> e.waiter != m
    ensures LogOrdered(Completed(v, m))
  {
    var v' := Completed(v, m);
    forall i, d | 0 <= i < |v'.log| && v'.log[i] in v'.orig && Lists(v'.orig[v'.log[i]], d)
      ensures d in v'.log[..i] || Edge(v'.log[i], d) in v'.broken
    {
      if i < |v.log| {
        assert v'.log[i] == v.log[i] && v'.log[..i] == v.log[..i];
      } else {
        assert v'.log[..i] == v.log;
        assert Settled(v, m, d);
      }
    }
  }

  lemma CompletedKeeps(v: View, open: multiset<Id>, due: multiset<Id>, m: Id)
    requires Inv(v, open, due) && m in v.modules && !v.modules[m].complete && v.modules[m].count == 0
    requires NoneReadyBut(v, m)
    ensures Inv(Completed(v, m), open, due + multiset(WaitersOf(v, m)))
    ensures NoneReady(Completed(v, m))
    ensures m !in open && m !in due
  {
    hide DepsKept, InverseExact, CountsExact, EdgesLive, DebtsLive, LogExact, AllSettled, LogOrdered, BrokenOnCycles,
      Acyclic, Without;
    NoEdgesFrom(v, open, due, m);
    CompletedCounts(v, open, due, m);
    CompletedRest(v, open, due, m);
    CompletedLog(v, open, due, m);
  }

  // ----- a counter goes down -----

  ghost function CountDown(v: View, m: Id): View
    requires m in v.modules
  {
    v.(modules := v.modules[m := v.modules[m].(count := v.modules[m].count - 1)])
  }

  /** An ended wait is counted down. */
  lemma DeliveryKeeps(v: View, open: multiset<Id>, due: multiset<Id>, m: Id)
    requires Inv(v, open, due) && m in due
    ensures m in v.modules && !v.modules[m].complete && Inv(CountDown(v, m), open, due - multiset{m})
    ensures NoneReady(v) ==> NoneReadyBut(CountDown(v, m), m)
  {
    CountDownKeeps(v, m);
    DeliveryCounts(v, open, due, m);
    DeliverySettled(v, open, m);
    hide DepsKept, CountsExact, EdgesLive, LogExact, AllSettled, LogOrdered, BrokenOnCycles, Acyclic;
  }

  lemma DeliveryCounts(v: View, open: multiset<Id>, due: multiset<Id>, m: Id)
    requires CountsExact(v, open, due) && m in due && m in v.modules
    ensures CountsExact(CountDown(v, m), open, due - multiset{m})
  {
    var v' := CountDown(v, m);
    forall x | x in v'.modules
      ensures v'.modules[x].count == CountFrom(v'.edges, x) + open[x] + (due - multiset{m})[x]
    {
      assert v.modules[x].count == CountFrom(v.edges, x) + open[x] + due[x];
    }
  }

  lemma DeliverySettled(v: View, open: multiset<Id>, m: Id)
    requires AllSettled(v, open) && m in v.modules
    ensures AllSettled(CountDown(v, m), open)
  {
    var v' := CountDown(v, m);
    forall x, d | x in v'.modules && x in v'.orig && x !in open && Lists(v'.orig[x], d)
      ensures Settled(v', x, d)
    {
      assert Settled(v, x, d);
    }
  }

  /** What does not depend on counters stays. */
  lemma CountDownKeeps(v: View, m: Id)
    requires m in v.modules
    ensures var v' := CountDown(v, m);
            && (DepsKept(v) ==> DepsKept(v')) && (EdgesLive(v) ==> EdgesLive(v'))
            && (InverseExact(v) ==> InverseExact(v'))
            && (LogExact(v) ==> LogExact(v')) && (LogOrdered(v) ==> LogOrdered(v'))
            && Pending(v'.modules) == Pending(v.modules)
            && forall x :: IsComplete(v'.modules, x) == IsComplete(v.modules, x)
  {
    var v' := CountDown(v, m);
    assert v'.modules.Keys == v.modules.Keys;
    assert forall x :: x in v.modules ==>
             v'.modules[x].deps == v.modules[x].deps && v'.modules[x].complete == v.modules[x].complete;
  }

  // ----- a dependency is looked at -----

  /** One dependency of `m` fewer to look at. */
  ghost function Less(open: multiset<Id>, m: Id): multiset<Id> {
    open - multiset{m}
  }

  ghost predicate Resolving(v: View, open: multiset<Id>, m: Id) {
    m in open && m in v.modules && !v.modules[m].complete && m in v.orig
  }

  /** If this was the last one, all dependencies of `m` are settled. */
  ghost predicate LastSettled(v: View, open: multiset<Id>, m: Id)
    requires m in v.orig
  {
    m !in open ==> forall d :: Lists(v.orig[m], d) ==> Settled(v, m, d)
  }

  /** A dependency that needs no wait. */
  lemma SkipKeeps(v: View, open: multiset<Id>, m: Id)
    requires Inv(v, open, multiset{}) && Resolving(v, open, m)
    requires LastSettled(CountDown(v, m), Less(open, m), m)
    ensures Inv(CountDown(v, m), Less(open, m), multiset{})
    ensures NoneReady(v) ==> NoneReadyBut(CountDown(v, m), m)
  {
    CountDownKeeps(v, m);
    SkipCounts(v, open, m);
    SkipSettled(v, open, m);
    hide DepsKept, CountsExact, EdgesLive, LogExact, AllSettled, LogOrdered, BrokenOnCycles, Acyclic, LastSettled;
  }

  lemma SkipCounts(v: View, open: multiset<Id>, m: Id)
    requires CountsExact(v, open, multiset{}) && Resolving(v, open, m)
    ensures CountsExact(CountDown(v, m), Less(open, m), multiset{})
  {
    var v' := CountDown(v, m);
    forall x | x in v'.modules
      ensures v'.modules[x].count == CountFrom(v'.edges, x) + Less(open, m)[x] + multiset{}[x]
    {
      assert v.modules[x].count == CountFrom(v.edges, x) + open[x] + multiset{}[x];
    }
  }

  lemma SkipSettled(v: View, open: multiset<Id>, m: Id)
    requires AllSettled(v, open) && Resolving(v, open, m) && LastSettled(CountDown(v, m), Less(open, m), m)
    ensures AllSettled(CountDown(v, m), Less(open, m))
  {
    var v' := CountDown(v, m);
    forall x, d | x in v'.modules && x in v'.orig && x !in Less(open, m) && Lists(v'.orig[x], d)
      ensures Settled(v', x, d)
    {
      assert x != m ==> Settled(v, x, d);
    }
  }

  ghost function Broken(v: View, m: Id, d: Id): View {
    v.(broken := v.broken + {Edge(m, d)})
  }

  /** A wait given up because `d` depends on `m`. */
  lemma BreakKeeps(v: View, open: multiset<Id>, m: Id, d: Id)
    requires Inv(v, open, multiset{}) && Resolving(v, open, m) && Reaches(v.orig, d, m)
    requires NoneReady(v)
    ensures Inv(Broken(v, m, d), open, multiset{}) && NoneReady(Broken(v, m, d))
  {
    var v' := Broken(v, m, d);
    assert AllSettled(v', open) by {
      forall x, y | x in v'.modules && x in v'.orig && x !in open && Lists(v'.orig[x], y)
        ensures Settled(v', x, y)
      {
        assert Settled(v, x, y);
      }
    }
  }

  ghost function Waiting(v: View, m: Id, d: Id): View {
    v.(inverse := v.inverse[d := WaitersOf(v, d) + [m]], edges := v.edges + [Edge(m, d)])
  }

  /** A new wait: `d` is not complete and does not depend on `m`. */
  lemma WaitKeeps(v: View, open: multiset<Id>, m: Id, d: Id)
    requires Inv(v, open, multiset{}) && Resolving(v, open, m)
    requires Lists(v.orig[m], d) && !IsComplete(v.modules, d) && !Reaches(Pending(v.modules), d, m)
    requires LastSettled(Waiting(v, m, d), Less(open, m), m)
    ensures Inv(Waiting(v, m, d), Less(open, m), multiset{})
  {
    hide DepsKept, InverseExact, CountsExact, EdgesLive, DebtsLive, LogExact, AllSettled, LogOrdered, BrokenOnCycles,
      Acyclic;
    WaitStaysAcyclic(v, open, m, d);
    WaitCounts(v, open, m, d);
    WaitSettles(v, open, m, d);
  }

  lemma WaitCounts(v: View, open: multiset<Id>, m: Id, d: Id)
    requires InverseExact(v) && CountsExact(v, open, multiset{}) && m in open
    ensures InverseExact(Waiting(v, m, d)) && CountsExact(Waiting(v, m, d), Less(open, m), multiset{})
  {
    hide InverseExact, CountFrom, Waiters;
    var v' := Waiting(v, m, d);
    WaitInverse(v, m, d);
    forall x | x in v'.modules
      ensures v'.modules[x].count == CountFrom(v'.edges, x) + Less(open, m)[x] + multiset{}[x]
    {
      assert v.modules[x].count == CountFrom(v.edges, x) + open[x] + multiset{}[x];
      PushCount(v.edges, Edge(m, d), x);
    }
  }

  lemma PushCount(edges: seq<Edge>, e: Edge, m: Id)
    ensures CountFrom(edges + [e], m) == CountFrom(edges, m) + if e.waiter == m then 1 else 0
  {
    PushEdge(edges, e);
  }

  lemma WaitInverse(v: View, m: Id, d: Id)
    requires InverseExact(v)
    ensures InverseExact(Waiting(v, m, d))
  {
    hide CountFrom, Waiters;
    var v' := Waiting(v, m, d);
    forall t
      ensures (if t in v'.inverse then v'.inverse[t] else []) == Waiters(v'.edges, t)
    {
      assert (if t in v.inverse then v.inverse[t] else []) == Waiters(v.edges, t);
      PushWaiter(v.edges, Edge(m, d), t);
    }
  }

  lemma PushWaiter(edges: seq<Edge>, e: Edge, t: Id)
    ensures Waiters(edges + [e], t) == if e.target == t then Waiters(edges, t) + [e.waiter] else Waiters(edges, t)
  {
    PushEdge(edges, e);
    assert Waiters(edges, t) + [] == Waiters(edges, t);
  }

  lemma WaitSettles(v: View, open: multiset<Id>, m: Id, d: Id)
    requires Inv(v, open, multiset{}) && Resolving(v, open, m)
    requires Lists(v.orig[m], d) && !IsComplete(v.modules, d)
    requires LastSettled(Waiting(v, m, d), Less(open, m), m)
    ensures var v', open' := Waiting(v, m, d), Less(open, m);
            && DepsKept(v') && EdgesLive(v') && DebtsLive(v', open', multiset{}) && LogExact(v')
            && AllSettled(v', open') && LogOrdered(v') && BrokenOnCycles(v')
  {
    hide InverseExact, CountsExact, Acyclic, Reaches;
    var v' := Waiting(v, m, d);
    assert forall e :: e in v'.edges <==> e in v.edges || e == Edge(m, d);
    forall x, y | x in v'.modules && x in v'.orig && x !in Less(open, m) && Lists(v'.orig[x], y)
      ensures Settled(v', x, y)
    {
      if x != m {
        assert Settled(v, x, y);
      }
    }
  }

  /** A walk along waits is a path of dependencies. */
  lemma WalkIsDepPath(v: View, open: multiset<Id>, w: seq<Id>)
    requires Inv(v, open, multiset{}) && Walk(w, v.edges) && |w| > 1
    ensures Reaches(Pending(v.modules), w[0], w[|w| - 1])
  {
    var g := Pending(v.modules);
    forall i | 0 <= i < |w| - 1
      ensures Step(g, w[i], w[i + 1])
    {
      var e := Edge(w[i], w[i + 1]);
      assert e in v.edges;
      StepOfListed(v, e.waiter, e.target);
    }
    assert DepPath(w, g, w[0], w[|w| - 1]);
  }

  lemma StepOfListed(v: View, m: Id, d: Id)
    requires DepsKept(v) && m in v.modules && !v.modules[m].complete && Lists(v.orig[m], d)
    ensures Step(Pending(v.modules), m, d)
  {
    var deps := Pending(v.modules)[m];
    var k :| 0 <= k < |deps| && deps[k] == Regular(d);
    assert DepId(deps[k]) == d;
  }

  lemma WaitStaysAcyclic(v: View, open: multiset<Id>, m: Id, d: Id)
    requires Inv(v, open, multiset{}) && Resolving(v, open, m)
    requires Lists(v.orig[m], d) && !Reaches(Pending(v.modules), d, m)
    ensures Acyclic(v.edges + [Edge(m, d)])
  {
    forall w | Walk(w, v.edges) && w[0] == d
      ensures w[|w| - 1] != m
    {
      if w[|w| - 1] == m {
        if |w| > 1 {
          WalkIsDepPath(v, open, w);
        } else {
          StepOfListed(v, m, d);
          ReachesOn(Pending(v.modules), m, m, d);
        }
      }
    }
    NewEdgeStaysAcyclic(v.edges, Edge(m, d));
  }

  // ----- a module is defined -----

  ghost function Defined(v: View, m: Id, deps: seq<Dep>): View {
    v.(modules := v.modules[m := Module(deps, |deps|, false)], orig := v.orig[m := deps])
  }

  ghost function Copies(m: Id, n: nat): multiset<Id> {
    multiset{}[m := n]
  }

  lemma DefinedKeeps(v: View, stuck: multiset<Id>, m: Id, deps: seq<Dep>)
    requires Inv(v, stuck, multiset{}) && NoneReady(v) && m !in v.modules
    ensures var v' := Defined(v, m, deps);
            && NoneReadyBut(v', m) && m !in stuck && (deps != [] ==> NoneReady(v'))
            && Inv(v', stuck + Copies(m, |deps|), multiset{})
  {
    hide DepsKept, InverseExact, CountsExact, EdgesLive, DebtsLive, LogExact, AllSettled, LogOrdered, BrokenOnCycles,
      Acyclic;
    DefinedCounts(v, stuck, m, deps);
    DefinedLog(v, stuck, m, deps);
    DefinedSettled(v, stuck, m, deps);
    SameInverse(v, Defined(v, m, deps));
  }

  lemma DefinedSettled(v: View, stuck: multiset<Id>, m: Id, deps: seq<Dep>)
    requires DepsKept(v) && EdgesLive(v) && DebtsLive(v, stuck, multiset{}) && AllSettled(v, stuck) && m !in v.modules
    ensures var v', open := Defined(v, m, deps), stuck + Copies(m, |deps|);
            DepsKept(v') && EdgesLive(v') && DebtsLive(v', open, multiset{}) && AllSettled(v', open)
  {
    var v', open := Defined(v, m, deps), stuck + Copies(m, |deps|);
    forall x, d | x in v'.modules && x in v'.orig && x !in open && Lists(v'.orig[x], d)
      ensures Settled(v', x, d)
    {
      if x != m {
        assert Settled(v, x, d);
      }
    }
    assert v'.orig.Keys == v'.modules.Keys;
  }

  lemma DefinedLog(v: View, stuck: multiset<Id>, m: Id, deps: seq<Dep>)
    requires DepsKept(v) && LogExact(v) && LogOrdered(v) && BrokenOnCycles(v) && m !in v.modules
    ensures var v' := Defined(v, m, deps); LogExact(v') && LogOrdered(v') && BrokenOnCycles(v')
  {
    hide Reaches;
    var v' := Defined(v, m, deps);
    forall i, d | 0 <= i < |v.log| && v.log[i] in v'.orig && Lists(v'.orig[v.log[i]], d)
      ensures d in v.log[..i] || Edge(v.log[i], d) in v.broken
    {
      assert v.log[i] in v.log;
      assert v.log[i] in v.orig && Lists(v.orig[v.log[i]], d);
    }
    forall e | e in v'.broken
      ensures Reaches(v'.orig, e.target, e.waiter)
    {
      ReachesMore(v.orig, v'.orig, e.target, e.waiter);
    }
  }

  lemma SameInverse(v: View, v': View)
    requires InverseExact(v) && v'.inverse == v.inverse && v'.edges == v.edges
    ensures InverseExact(v')
  {
    forall t
      ensures (if t in v'.inverse then v'.inverse[t] else []) == Waiters(v'.edges, t)
    {
      assert (if t in v.inverse then v.inverse[t] else []) == Waiters(v.edges, t);
    }
  }

  lemma DefinedCounts(v: View, stuck: multiset<Id>, m: Id, deps: seq<Dep>)
    requires CountsExact(v, stuck, multiset{}) && EdgesLive(v) && DebtsLive(v, stuck, multiset{}) && m !in v.modules
    ensures m !in stuck
    ensures CountsExact(Defined(v, m, deps), stuck + Copies(m, |deps|), multiset{})
  {
    var v', open := Defined(v, m, deps), stuck + Copies(m, |deps|);
    NoCounts(v.edges, m);
    forall x | x in v'.modules
      ensures v'.modules[x].count == CountFrom(v'.edges, x) + open[x] + multiset{}[x]
    {
      if x != m {
        assert v.modules[x].count == CountFrom(v.edges, x) + stuck[x] + multiset{}[x];
      }
    }
  }

  lemma {:induction false} NoCounts(edges: seq<Edge>, m: Id)
    requires forall e :: e in edges ==> e.waiter != m
    ensures CountFrom(edges, m) == 0
  {
    if edges != [] {
      NoCounts(edges[..|edges| - 1], m);
    }
  }

  // ----- no deadlock -----

  /** Every module a definition lists is defined. */
  ghost predicate AllDefined(v: View) {
    forall m, d :: m in v.orig && Lists(v.orig[m], d) ==> d in v.modules
  }

  /** At rest, with every mentioned module defined and no definition stuck, all are complete. */
  lemma AllComplete(v: View)
    requires Inv(v, multiset{}, multiset{}) && NoneReady(v) && AllDefined(v)
    ensures forall m :: m in v.modules ==> v.modules[m].complete
  {
    hide Inv, NoneReady, AllDefined, Acyclic, Walk, NoRepeats, Closed;
    var waiting := Incomplete(v);
    WaitingIsClosed(v);
    if m :| m in waiting {
      OneVertex(m, v.edges);
      ClosedSetHasCycle(v.edges, waiting, [m]);
    }
    forall m | m in v.modules
      ensures v.modules[m].complete
    {
      assert m !in waiting;
    }
  }

  ghost function Incomplete(v: View): set<Id> {
    set m | m in v.modules && !v.modules[m].complete
  }

  lemma OneVertex(m: Id, edges: seq<Edge>)
    ensures Walk([m], edges) && NoRepeats([m])
  {
  }

  lemma WaitingIsClosed(v: View)
    requires Inv(v, multiset{}, multiset{}) && NoneReady(v) && AllDefined(v)
    ensures Acyclic(v.edges) && Closed(v.edges, Incomplete(v))
  {
    hide Acyclic;
    forall x | x in Incomplete(v)
      ensures WaitsIn(v.edges, Incomplete(v), x)
    {
      assert v.modules[x].count == CountFrom(v.edges, x) + multiset{}[x] + multiset{}[x];
      var e := CountedEdge(v.edges, x);
      assert e.target in v.modules;
    }
  }

  /** A module whose definition got stuck is not complete. */
  lemma StuckStay(v: View, stuck: multiset<Id>)
    requires Inv(v, stuck, multiset{})
    ensures forall m :: m in stuck ==> m in v.modules && !v.modules[m].complete && m !in v.log
  {
  }

  // ----- one dependency after another -----

  /** The dependency closes a cycle that cannot be printed: walking the pending dependencies depth
      first, a completed module comes before the way back to `m` and before the depth limit. */
  ghost predicate Unprintable(modules: Modules, m: Id, dep: Dep) {
    && dep.Regular? && !IsComplete(modules, dep.id) && Reaches(Pending(modules), dep.id, m)
    && CompletedFirst(Pending(modules), modules.Keys, dep.id, m)
  }

  /** The dependency closes a cycle, and pending dependencies lead from it to a completed module. */
  ghost predicate CompletedBehindCycle(modules: Modules, m: Id, dep: Dep) {
    && dep.Regular? && Reaches(Pending(modules), dep.id, m)
    && exists x :: IsComplete(modules, x) && Reaches(Pending(modules), dep.id, x)
  }

  /** A cycle is printed unless a completed module comes first. */
  lemma PrintFails(modules: Modules, d: Id, m: Id)
    requires Reaches(Pending(modules), d, m)
    ensures CycleSearch(Pending(modules), modules.Keys, d, m, 0) != Found
            <==> CompletedFirst(Pending(modules), modules.Keys, d, m)
  {
    hide CycleSearch, CompletedFirst, ArrivesFirst;
    var g := Pending(modules);
    var p :| DepPath(p, g, d, m);
    SearchMeans(g, modules.Keys, d, m);
    PathIsNotMissed(g, modules.Keys, p, m, 0);
  }

  /** So a definition only throws when a completed module lies behind a cycle it closes. */
  lemma UnprintableNeedsCompleted(modules: Modules, m: Id, dep: Dep)
    requires Unprintable(modules, m, dep)
    ensures CompletedBehindCycle(modules, m, dep)
  {
    hide CompletedFirst, Reaches;
    CrashNeedsCompleted(Pending(modules), modules.Keys, dep.id, m);
    var x :| x in modules.Keys && x !in Pending(modules) && (x == dep.id || Reaches(Pending(modules), dep.id, x));
    assert IsComplete(modules, x);
  }

  /** Two views that differ only in counters and waits. */
  ghost predicate SameShape(v: View, w: View) {
    && w.orig == v.orig && w.log == v.log && w.modules.Keys == v.modules.Keys
    && (forall x :: x in v.modules ==>
          w.modules[x].deps == v.modules[x].deps && w.modules[x].complete == v.modules[x].complete)
  }

  ghost predicate SettledDep(v: View, m: Id, dep: Dep) {
    dep.Regular? ==> Settled(v, m, dep.id)
  }

  ghost predicate MoreSettled(v: View, w: View, m: Id) {
    forall d :: Settled(v, m, d) ==> Settled(w, m, d)
  }

  /** If this is the last dependency to look at, the others are settled. */
  ghost predicate OthersSettled(v: View, open: multiset<Id>, m: Id, dep: Dep) {
    m in v.orig && (m !in open ==> forall d :: Lists(v.orig[m], d) && dep != Regular(d) ==> Settled(v, m, d))
  }

  lemma SameShapeReflexive(v: View)
    ensures SameShape(v, v)
  {
  }

  lemma SameShapeTransitive(u: View, v: View, w: View)
    requires SameShape(u, v) && SameShape(v, w)
    ensures SameShape(u, w)
  {
  }

  lemma ShapeOf(v: View, w: View, m: Id)
    requires SameShape(v, w) && m in v.modules
    ensures m in w.modules && w.modules[m].deps == v.modules[m].deps && w.modules[m].complete == v.modules[m].complete
  {
  }

  lemma UnprintableSame(v: View, w: View, m: Id, dep: Dep)
    requires SameShape(v, w)
    ensures Unprintable(v.modules, m, dep) <==> Unprintable(w.modules, m, dep)
  {
    assert Pending(v.modules) == Pending(w.modules);
  }

  lemma OrigOfIncomplete(v: View, open: multiset<Id>, m: Id)
    requires Inv(v, open, multiset{}) && m in v.modules && !v.modules[m].complete
    ensures m in v.orig && v.orig[m] == v.modules[m].deps
  {
  }

  lemma CountIsPositive(v: View, open: multiset<Id>, m: Id)
    requires Inv(v, open, multiset{}) && m in open && NoneReadyBut(v, m)
    ensures NoneReady(v) && Resolving(v, open, m) && v.orig[m] == v.modules[m].deps
  {
    assert v.modules[m].count == CountFrom(v.edges, m) + open[m] + multiset{}[m];
  }

  lemma FirstAreSettled(v: View, m: Id, deps: seq<Dep>, n: nat, open: multiset<Id>)
    requires n < |deps| && m in v.orig && v.orig[m] == deps
    requires forall k :: 0 <= k < n ==> SettledDep(v, m, deps[k])
    requires open[m] == |deps| - n
    ensures OthersSettled(v, Less(open, m), m, deps[n])
  {
    if m !in Less(open, m) {
      forall d | Lists(deps, d) && deps[n] != Regular(d)
        ensures Settled(v, m, d)
      {
        var k :| 0 <= k < |deps| && deps[k] == Regular(d);
        assert SettledDep(v, m, deps[k]);
      }
    }
  }

  lemma SettledOn(v: View, w: View, m: Id, deps: seq<Dep>, n: nat)
    requires n < |deps| && MoreSettled(v, w, m)
    requires forall k :: 0 <= k < n ==> SettledDep(v, m, deps[k])
    requires SettledDep(w, m, deps[n])
    ensures forall k :: 0 <= k < n + 1 ==> SettledDep(w, m, deps[k])
  {
  }

  lemma PendingIsOrig(v: View, a: Id, b: Id)
    requires DepsKept(v) && Reaches(Pending(v.modules), a, b)
    ensures Reaches(v.orig, a, b)
  {
    ReachesMore(Pending(v.modules), v.orig, a, b);
  }

  lemma KeptDeps(v: View, open: multiset<Id>)
    requires Inv(v, open, multiset{})
    ensures DepsKept(v)
  {
  }

  ghost predicate Resolved(v: View, w: View, open: multiset<Id>, m: Id, dep: Dep) {
    && Inv(w, Less(open, m), multiset{}) && NoneReadyBut(w, m)
    && SameShape(v, w) && MoreSettled(v, w, m) && SettledDep(w, m, dep)
  }

  /** A built-in name, or a module that is complete already. */
  lemma SkipResult(v: View, open: multiset<Id>, m: Id, dep: Dep)
    requires Inv(v, open, multiset{}) && NoneReady(v) && Resolving(v, open, m)
    requires OthersSettled(v, Less(open, m), m, dep) && (dep.Regular? ==> IsComplete(v.modules, dep.id))
    ensures Resolved(v, CountDown(v, m), open, m, dep)
  {
    hide Inv;
    var w := CountDown(v, m);
    CountDownKeeps(v, m);
    assert w.modules.Keys == v.modules.Keys;
    assert MoreSettled(v, w, m);
    SkipKeeps(v, open, m);
  }

  /** A module that itself depends on `m`. */
  lemma BreakResult(v: View, open: multiset<Id>, m: Id, d: Id)
    requires Inv(v, open, multiset{}) && NoneReady(v) && Resolving(v, open, m) && DepsKept(v)
    requires OthersSettled(v, Less(open, m), m, Regular(d)) && Reaches(Pending(v.modules), d, m)
    ensures Resolved(v, CountDown(Broken(v, m, d), m), open, m, Regular(d))
  {
    hide Inv, Reaches;
    var b := Broken(v, m, d);
    var w := CountDown(b, m);
    PendingIsOrig(v, d, m);
    BreakKeeps(v, open, m, d);
    CountDownKeeps(b, m);
    assert w.modules.Keys == v.modules.Keys;
    assert MoreSettled(v, w, m);
    SkipKeeps(b, open, m);
  }

  /** A module to wait for. */
  lemma WaitResult(v: View, open: multiset<Id>, m: Id, d: Id)
    requires Inv(v, open, multiset{}) && NoneReady(v) && Resolving(v, open, m) && DepsKept(v)
    requires Regular(d) in v.modules[m].deps && !IsComplete(v.modules, d) && !Reaches(Pending(v.modules), d, m)
    requires OthersSettled(v, Less(open, m), m, Regular(d))
    ensures Resolved(v, Waiting(v, m, d), open, m, Regular(d))
  {
    hide Inv, Reaches;
    var w := Waiting(v, m, d);
    assert forall e :: e in w.edges <==> e in v.edges || e == Edge(m, d);
    assert MoreSettled(v, w, m);
    WaitKeeps(v, open, m, d);
  }

  // ----- the manager -----

  class ModuleManager {
    var modules: Modules
    var inverse: map<Id, seq<Id>>
    ghost var edges: seq<Edge>
    ghost var broken: set<Edge>
    ghost var orig: Graph
    ghost var log: seq<Id>
    /** Dependencies never looked at because a definition threw half-way. */
    ghost var stuck: multiset<Id>

    ghost function V(): View
      reads this
    {
      View(modules, inverse, edges, broken, orig, log)
    }

    ghost predicate Valid()
      reads this
    {
      Inv(V(), stuck, multiset{}) && NoneReady(V())
    }

    constructor ()
      ensures Valid() && modules == map[] && orig == map[] && stuck == multiset{} && log == []
    {
      modules, inverse, edges, broken, orig, log, stuck := map[], map[], [], {}, map[], [], multiset{};
      new;
      NothingWaits();
    }

    /** Look at the dependencies of one module: report the target, or queue what is new. */
    method ScanDeps(x: Id, from: Id, to: Id, visited0: set<Id>, queue0: seq<Id>)
      returns (found: bool, visited: set<Id>, queue: seq<Id>)
      requires x in modules && x !in queue0 && Searching(modules, from, to, visited0, [x] + queue0)
      requires DepsKept(V())
      ensures found ==> Reaches(Pending(modules), from, to)
      ensures !found ==> Searching(modules, from, to, visited, queue)
      ensures !found ==> visited0 <= visited && (visited == visited0 ==> queue == queue0)
    {
      hide Reaches, DepsKept;
      ghost var g := Pending(modules);
      visited, queue := visited0, queue0;
      var deps := modules[x].deps;
      CompletedListsNothing(V(), x);
      ScanStarts(modules, from, to, visited, queue, x);
      var o := 0;
      while o < |deps|
        invariant 0 <= o <= |deps|
        invariant Scanning(modules, from, to, visited, queue, x, o)
        invariant visited0 <= visited && (visited == visited0 ==> queue == queue0)
      {
        var d := DepId(deps[o]);
        DepIsReached(modules, from, to, visited, queue, x, o);
        if d == to {
          return true, visited, queue;
        }
        ScanStep(modules, from, to, visited, queue, x, o);
        if d in modules && d !in visited {
          visited := visited + {d};
          queue := queue + [d];
        }
        o := o + 1;
      }
      ScanEnds(modules, from, to, visited, queue, x);
      found := false;
    }

    /** Breadth-first search along dependencies that are not complete. */
    method HasDependencyPath(from: Id, to: Id) returns (r: bool)
      requires DepsKept(V())
      ensures r == Reaches(Pending(modules), from, to)
    {
      hide Reaches, DepsKept, Pending, Searching;
      if from !in modules {
        UndefinedReachesNothing(modules, from, to);
        return false;
      }
      var visited, queue := {from}, [from];
      SearchStarts(modules, from, to);
      while |queue| > 0
        invariant Searching(modules, from, to, visited, queue)
        decreases |modules.Keys - visited|, |queue|
      {
        var x := queue[0];
        HeadOfQueue(modules, from, to, visited, queue);
        assert queue == [x] + queue[1..];
        ghost var seen := visited;
        var found;
        found, visited, queue := ScanDeps(x, from, to, visited, queue[1..]);
        if found {
          return true;
        }
        if visited != seen {
          VisitedIsDefined(modules, from, to, visited, queue);
          FewerLeft(modules.Keys, seen, visited);
        }
      }
      SearchEnds(modules, from, to, visited);
      r := false;
    }

    /** The depth-first search whose result is only printed. */
    method FindCyclePath(from: Id, to: Id, depth: nat) returns (r: Search)
      requires depth <= 50 && DepsKept(V())
      ensures r == CycleSearch(Pending(modules), modules.Keys, from, to, depth)
      ensures Explained(Pending(modules), modules.Keys, from, to, 50 - depth, r)
      decreases 50 - depth
    {
      hide Explained;
      SearchIsExplained(Pending(modules), modules.Keys, from, to, depth);
      if from == to || depth == 50 {
        return Found;
      }
      if from !in modules {
        return Missing;
      }
      if modules[from].complete {
        return Crash;
      }
      var deps := modules[from].deps;
      var i := 0;
      assert deps[0..] == deps;
      while i < |deps|
        invariant 0 <= i <= |deps|
        invariant SearchDeps(Pending(modules), modules.Keys, deps, to, depth)
               == SearchDeps(Pending(modules), modules.Keys, deps[i..], to, depth)
      {
        assert deps[i..][1..] == deps[i + 1..];
        r := FindCyclePath(DepId(deps[i]), to, depth + 1);
        if r != Missing {
          return;
        }
        i := i + 1;
      }
      r := Missing;
    }

    /** The first half of completing: the module is complete and its waiters are due. */
    method MarkComplete(m: Id, ghost open: multiset<Id>, ghost due: multiset<Id>) returns (waiters: seq<Id>)
      requires Inv(V(), open, due) && NoneReadyBut(V(), m)
      requires m in modules && !modules[m].complete && modules[m].count == 0
      modifies this`modules, this`inverse, this`edges, this`log
      ensures Inv(V(), open, due + multiset(waiters)) && NoneReady(V())
      ensures modules.Keys == old(modules.Keys) && IsComplete(modules, m)
      ensures Incomplete(V()) == old(Incomplete(V())) - {m} && log == old(log) + [m]
    {
      hide Inv, NoneReadyBut, NoneReady;
      ghost var was := V();
      CompletedKeeps(was, open, due, m);
      modules := modules[m := Module([], modules[m].count, true)];
      waiters := if m in inverse then inverse[m] else [];
      inverse := inverse - {m};
      edges := Without(edges, m);
      log := log + [m];
      assert V() == Completed(was, m);
    }

    /** Count one ended wait of `c` down; if it was the last one, complete `c`. */
    method Deliver(c: Id, ghost open: multiset<Id>, ghost due: multiset<Id>)
      requires Inv(V(), open, due) && NoneReady(V()) && c in due
      modifies this`modules, this`inverse, this`edges, this`log
      ensures Inv(V(), open, due - multiset{c}) && NoneReady(V())
      ensures modules.Keys == old(modules.Keys)
      ensures Incomplete(V()) <= old(Incomplete(V())) && old(log) <= log
      decreases Incomplete(V()), 1
    {
      hide Inv, NoneReadyBut, NoneReady;
      ghost var here := V();
      DeliveryKeeps(here, open, due, c);
      modules := modules[c := modules[c].(count := modules[c].count - 1)];
      assert V() == CountDown(here, c);
      SameIncomplete(here, c);
      if modules[c].count == 0 {
        OnModuleComplete(c, open, due - multiset{c});
      } else {
        NoneReadyAtAll(V(), open, due - multiset{c}, c);
      }
    }

    /** Complete a module whose counter is at zero, then everything that only waited for it.
        `open` and `due` are the debts of the calls around this one. */
    method OnModuleComplete(m: Id, ghost open: multiset<Id>, ghost due: multiset<Id>)
      requires Inv(V(), open, due) && NoneReadyBut(V(), m)
      requires m in modules && !modules[m].complete && modules[m].count == 0
      modifies this`modules, this`inverse, this`edges, this`log
      ensures Inv(V(), open, due) && NoneReady(V())
      ensures modules.Keys == old(modules.Keys) && m in log
      ensures Incomplete(V()) <= old(Incomplete(V())) - {m} && old(log) <= log
      decreases Incomplete(V()), 0
    {
      hide Inv, NoneReadyBut, NoneReady;
      ghost var before := Incomplete(V());
      assert m in before;
      var waiters := MarkComplete(m, open, due);
      assert waiters[0..] == waiters;
      var s := 0;
      while s < |waiters|
        invariant 0 <= s <= |waiters|
        invariant Inv(V(), open, due + multiset(waiters[s..])) && NoneReady(V())
        invariant modules.Keys == old(modules.Keys)
        invariant Incomplete(V()) <= before - {m} && old(log) + [m] <= log
      {
        var c := waiters[s];
        OneDelivered(due, waiters, s);
        Deliver(c, open, due + multiset(waiters[s..]));
        s := s + 1;
      }
      assert due + multiset(waiters[s..]) == due;
      assert m == log[|old(log)|];
    }

    /** Look at one dependency of `m`: skip it, give it up on a cycle, or wait for it.  Fails when
        the cycle cannot be described. */
    method ResolveDep(m: Id, dep: Dep, ghost open: multiset<Id>) returns (ok: bool)
      requires Inv(V(), open, multiset{}) && NoneReady(V()) && Resolving(V(), open, m)
      requires dep in modules[m].deps
      requires OthersSettled(V(), Less(open, m), m, dep)
      modifies this`modules, this`inverse, this`edges, this`broken
      ensures ok == !Unprintable(old(modules), m, dep)
      ensures !ok ==> V() == old(V())
      ensures ok ==> Inv(V(), Less(open, m), multiset{}) && NoneReadyBut(V(), m)
      ensures ok ==> SameShape(old(V()), V()) && MoreSettled(old(V()), V(), m)
      ensures ok && dep.Regular? ==> Settled(V(), m, dep.id)
      ensures forall e :: e in broken ==> e in old(broken) || e.waiter == m
    {
      hide Reaches, Inv, Settled, SameShape, MoreSettled, OthersSettled, NoneReady, NoneReadyBut, CompletedFirst,
        CycleSearch, Explained;
      ghost var was := V();
      KeptDeps(was, open);
      if dep.Regular? && (dep.id !in modules || !modules[dep.id].complete) {
        var d := dep.id;
        var path := HasDependencyPath(d, m);
        if !path {
          WaitResult(was, open, m, d);
          inverse := inverse[d := (if d in inverse then inverse[d] else []) + [m]];
          edges := edges + [Edge(m, d)];
          assert V() == Waiting(was, m, d);
          return true;
        }
        var found := FindCyclePath(d, m, 0);
        PrintFails(modules, d, m);
        if found != Found {
          return false;
        }
        BreakResult(was, open, m, d);
        broken := broken + {Edge(m, d)};
        assert V() == Broken(was, m, d);
      } else {
        SkipResult(was, open, m, dep);
      }
      ghost var now := V();
      modules := modules[m := modules[m].(count := modules[m].count - 1)];
      assert V() == CountDown(now, m);
      ok := true;
    }

    /** Look at all dependencies of a new module, then complete it if nothing is left to wait for. */
    method Resolve(m: Id) returns (ok: bool)
      requires m in modules && !modules[m].complete && m !in stuck
      requires Inv(V(), stuck + Copies(m, |modules[m].deps|), multiset{}) && NoneReadyBut(V(), m)
      modifies this
      ensures Valid() && modules.Keys == old(modules.Keys) && orig == old(orig)
      ensures ok <==> forall k :: 0 <= k < |old(modules)[m].deps| ==>
              !Unprintable(old(modules), m, old(modules)[m].deps[k])
      ensures if ok then stuck == old(stuck) else m in stuck && old(stuck) <= stuck
      ensures old(log) <= log
      ensures forall e :: e in broken ==> e in old(broken) || e.waiter == m
    {
      hide Inv, Settled, Unprintable, NoneReady, NoneReadyBut;
      var deps := modules[m].deps;
      ghost var start := V();
      ghost var shut := stuck;
      OrigOfIncomplete(start, shut + Copies(m, |deps|), m);
      SameShapeReflexive(start);
      var n := 0;
      while n < |deps|
        invariant 0 <= n <= |deps| && stuck == shut && log == start.log && orig == start.orig
        invariant Inv(V(), shut + Copies(m, |deps| - n), multiset{}) && NoneReadyBut(V(), m)
        invariant SameShape(start, V())
        invariant forall k :: 0 <= k < n ==> SettledDep(V(), m, deps[k])
        invariant forall k :: 0 <= k < n ==> !Unprintable(start.modules, m, deps[k])
        invariant forall e :: e in broken ==> e in start.broken || e.waiter == m
      {
        ghost var open := shut + Copies(m, |deps| - n);
        ghost var was := V();
        assert m in open;
        ShapeOf(start, was, m);
        CountIsPositive(was, open, m);
        FirstAreSettled(was, m, deps, n, open);
        ok := ResolveDep(m, deps[n], open);
        UnprintableSame(start, was, m, deps[n]);
        if !ok {
          stuck := open;
          return;
        }
        SettledOn(was, V(), m, deps, n);
        SameShapeTransitive(start, was, V());
        assert Less(open, m) == shut + Copies(m, |deps| - n - 1);
        n := n + 1;
      }
      assert shut + Copies(m, 0) == shut;
      ShapeOf(start, V(), m);
      ok := true;
      if modules[m].count == 0 {
        OnModuleComplete(m, shut, multiset{});
      } else {
        NoneReadyAtAll(V(), shut, multiset{}, m);
      }
    }

    /** Define a module; a second definition of the same module changes nothing. */
    method DefineModule(m: Id, deps: seq<Dep>) returns (ok: bool)
      requires Valid()
      modifies this
      ensures Valid() && old(log) <= log
      ensures m in old(modules) ==> ok && V() == old(V()) && stuck == old(stuck)
      ensures m !in old(modules) ==>
                && modules.Keys == old(modules.Keys) + {m} && orig == old(orig)[m := deps]
                && (ok <==> forall k :: 0 <= k < |deps| ==>
                              !Unprintable(old(modules)[m := Module(deps, |deps|, false)], m, deps[k]))
                && (if ok then stuck == old(stuck) else m in stuck && old(stuck) <= stuck)
      ensures !ok ==> exists k ::
                0 <= k < |deps| && CompletedBehindCycle(old(modules)[m := Module(deps, |deps|, false)], m, deps[k])
      ensures forall x :: x in stuck ==> !IsComplete(modules, x)
      ensures forall e :: e in broken ==> e in old(broken) || e.waiter == m
    {
      hide CompletedBehindCycle, Inv, Unprintable, NoneReady, NoneReadyBut;
      if m in modules {
        StuckStay(V(), stuck);
        return true;
      }
      ghost var was := V();
      DefinedKeeps(was, stuck, m, deps);
      modules := modules[m := Module(deps, |deps|, false)];
      orig := orig[m := deps];
      assert V() == Defined(was, m, deps);
      ghost var defined := modules;
      ok := Resolve(m);
      StuckStay(V(), stuck);
      if !ok {
        ghost var k :| 0 <= k < |deps| && Unprintable(defined, m, deps[k]);
        UnprintableNeedsCompleted(defined, m, deps[k]);
      }
    }

    /** Defines one module after the other. A module whose definition throws stays incomplete for
        good; when none throws and every listed module is defined, all modules are complete. */
    method DefineAll(defs: seq<(Id, seq<Dep>)>) returns (oks: seq<bool>)
      requires Valid()
      modifies this
      ensures Valid() && |oks| == |defs| && old(log) <= log && old(stuck) <= stuck
      ensures forall x :: x in stuck ==> !IsComplete(modules, x)
      ensures forall k :: 0 <= k < |defs| ==> defs[k].0 in modules && (!oks[k] ==> defs[k].0 in stuck)
      ensures (forall k :: 0 <= k < |defs| ==> oks[k]) ==> stuck == old(stuck)
      ensures (forall k :: 0 <= k < |defs| ==> oks[k]) && old(stuck) == multiset{} && AllDefined(V()) ==>
                forall x :: x in modules ==> modules[x].complete
    {
      hide Inv, NoneReady, Unprintable, CompletedBehindCycle, AllDefined;
      oks := [];
      var allOk := true;
      StuckStay(V(), stuck);
      for i := 0 to |defs|
        invariant Valid() && |oks| == i && old(log) <= log && old(stuck) <= stuck
        invariant forall x :: x in stuck ==> !IsComplete(modules, x)
        invariant forall k :: 0 <= k < i ==> defs[k].0 in modules && (!oks[k] ==> defs[k].0 in stuck)
        invariant allOk <==> forall k :: 0 <= k < i ==> oks[k]
        invariant allOk ==> stuck == old(stuck)
      {
        ghost var before := oks;
        var ok := DefineModule(defs[i].0, defs[i].1);
        oks, allOk := oks + [ok], allOk && ok;
        assert oks[i] == ok && forall k :: 0 <= k < i ==> before[k] == oks[k];
      }
      if stuck == multiset{} && AllDefined(V()) {
        AllComplete(V());
      }
    }

    /** With no definition stuck and every listed module defined, all modules are complete, each
        exactly once, each after its dependencies except those it is on a cycle with. */
    lemma AllModulesComplete()
      requires Valid() && stuck == multiset{} && AllDefined(V())
      ensures forall m :: m in modules ==> modules[m].complete
      ensures NoRepeats(log) && forall m :: m in log <==> m in modules
      ensures forall i, d :: 0 <= i < |log| && log[i] in orig && Lists(orig[log[i]], d) ==>
                d in log[..i] || Reaches(orig, d, log[i])
    {
      AllComplete(V());
      forall i, d | 0 <= i < |log| && log[i] in orig && Lists(orig[log[i]], d)
        ensures d in log[..i] || Reaches(orig, d, log[i])
      {
        assert d in log[..i] || Edge(log[i], d) in broken;
      }
    }
  }

  /** A cycle behind a completed module: 11 lists 10, which is complete, and 12; 12 lists 11.  The
      definition of 12 throws, and neither 11 nor 12 ever completes. */
  method CycleBehindCompletedModule() returns (manager: ModuleManager, ok: bool)
    ensures fresh(manager) && manager.Valid() && AllDefined(manager.V())
    ensures !ok && !IsComplete(manager.modules, 11) && !IsComplete(manager.modules, 12)
  {
    hide Inv, NoneReady, Reaches, AllDefined, Unprintable;
    manager := new ModuleManager();
    ok := manager.DefineModule(10, []);
    ghost var v1 := manager.V();
    assert AllDefined(v1) by { NothingListed(v1); }
    AllComplete(v1);
    var deps := [Regular(10), Regular(12)];
    FirstPrints(v1.modules, deps);
    ok := manager.DefineModule(11, deps);
    assert ok;
    ghost var v2 := manager.V();
    ElevenWaits(v1, v2);
    CrashOnTen(v2);
    ok := manager.DefineModule(12, [Regular(11)]);
    assert AllDefined(manager.V()) by { ThreeDefined(manager.V()); }
    assert manager.stuck[12] > 0;
    ElevenStillWaits(manager.V(), manager.stuck);
  }

  lemma ElevenStillWaits(v: View, stuck: multiset<Id>)
    requires Inv(v, stuck, multiset{}) && 12 in stuck && 11 in v.orig && Lists(v.orig[11], 12)
             && Edge(11, 12) !in v.broken
    ensures !IsComplete(v.modules, 11) && !IsComplete(v.modules, 12)
  {
    StuckStay(v, stuck);
    forall i | 0 <= i < |v.log|
      ensures v.log[i] != 11
    {
      var before := v.log[..i];
      assert v.log[i] == 11 ==> 12 in before;
      assert forall x :: x in before ==> x in v.log;
    }
  }

  lemma NothingListed(v: View)
    requires v.orig == map[10 := []]
    ensures AllDefined(v)
  {
  }

  lemma FirstPrints(modules: Modules, deps: seq<Dep>)
    requires modules.Keys == {10} && modules[10].complete && deps == [Regular(10), Regular(12)]
    ensures forall k :: 0 <= k < |deps| ==> !Unprintable(modules[11 := Module(deps, |deps|, false)], 11, deps[k])
  {
    var m' := modules[11 := Module(deps, |deps|, false)];
    assert IsComplete(m', 10);
    UndefinedReachesNothing(m', 12, 11);
  }

  lemma ElevenWaits(v1: View, v2: View)
    requires Inv(v1, multiset{}, multiset{}) && Inv(v2, multiset{}, multiset{}) && v1.log <= v2.log
    requires IsComplete(v1.modules, 10) && v2.modules.Keys == {10, 11} && 11 in v2.orig
    requires v2.orig[11] == [Regular(10), Regular(12)]
    ensures IsComplete(v2.modules, 10)
    ensures !v2.modules[11].complete && v2.modules[11].deps == [Regular(10), Regular(12)]
    ensures Lists(v2.orig[11], 12) && Edge(11, 12) !in v2.broken
  {
    assert 10 in v1.log;
    assert 10 in v2.log;
    assert Lists(v2.orig[11], 12) by { assert v2.orig[11][1] == Regular(12); }
    assert Settled(v2, 11, 12);
    if Edge(11, 12) in v2.broken {
      assert Reaches(v2.orig, 12, 11);
      ClosedSetAvoids(v2.orig, {12}, 12, 11);
    }
  }

  lemma CrashOnTen(v: View)
    requires v.modules.Keys == {10, 11} && IsComplete(v.modules, 10)
    requires !v.modules[11].complete && v.modules[11].deps == [Regular(10), Regular(12)]
    ensures Unprintable(v.modules[12 := Module([Regular(11)], 1, false)], 12, [Regular(11)][0])
  {
    var m := v.modules[12 := Module([Regular(11)], 1, false)];
    var g := Pending(m);
    assert g[11] == [Regular(10), Regular(12)];
    assert DepId(g[11][1]) == 12;
    assert Step(g, 11, 12);
    assert DepPath([11, 12], g, 11, 12);
    assert CycleSearch(g, m.Keys, 10, 12, 1) == Crash;
    assert SearchDeps(g, m.Keys, g[11], 12, 0) == Crash;
    PrintFails(m, 11, 12);
  }

  lemma ThreeDefined(v: View)
    requires v.modules.Keys == {10, 11, 12}
    requires v.orig == map[10 := [], 11 := [Regular(10), Regular(12)], 12 := [Regular(11)]]
    ensures AllDefined(v)
  {
  }

  lemma OneDelivered(due: multiset<Id>, waiters: seq<Id>, s: nat)
    requires s < |waiters|
    ensures waiters[s] in due + multiset(waiters[s..])
    ensures due + multiset(waiters[s..]) - multiset{waiters[s]} == due + multiset(waiters[s + 1..])
  {
    assert waiters[s..] == [waiters[s]] + waiters[s + 1..];
  }

  lemma SameIncomplete(v: View, c: Id)
    requires c in v.modules
    ensures Incomplete(CountDown(v, c)) == Incomplete(v) && CountDown(v, c).modules.Keys == v.modules.Keys
  {
  }

  lemma NoneReadyAtAll(v: View, open: multiset<Id>, due: multiset<Id>, c: Id)
    requires Inv(v, open, due) && NoneReadyBut(v, c) && c in v.modules && v.modules[c].count != 0
    ensures NoneReady(v)
  {
    assert v.modules[c].count == CountFrom(v.edges, c) + open[c] + due[c];
  }
  lemma NothingWaits()
    ensures Acyclic([])
  {
    forall p: seq<Id> | |p| > 1
      ensures !Walk(p, [])
    {
      assert Edge(p[0], p[0 + 1]) !in [];
    }
  }

  // ----- the search, step by step -----

  /** Everything visited is reached, and whatever is visited but not queued has only steps to
      visited modules, none of them the target. */
  ghost predicate Searching(modules: Modules, from: Id, to: Id, visited: set<Id>, queue: seq<Id>) {
    var g := Pending(modules);
    && from in visited && visited <= modules.Keys && NoRepeats(queue)
    && (forall x :: x in queue ==> x in visited)
    && (forall x :: x in visited ==> x == from || Reaches(g, from, x))
    && forall x, y :: x in visited && x !in queue && Step(g, x, y) ==> y != to && (y in g ==> y in visited)
  }

  /** The same while the first `o` dependencies of `at` have been looked at. */
  ghost predicate Scanning(modules: Modules, from: Id, to: Id, visited: set<Id>, queue: seq<Id>, at: Id, o: int) {
    var g := Pending(modules);
    && from in visited && at in visited && visited <= modules.Keys && NoRepeats(queue) && at !in queue
    && (forall x :: x in queue ==> x in visited)
    && (forall x :: x in visited ==> x == from || Reaches(g, from, x))
    && (forall x, y :: x in visited && x !in queue && x != at && Step(g, x, y) ==> y != to && (y in g ==> y in visited))
    && 0 <= o <= |modules[at].deps|
    && (modules[at].deps != [] ==> at in g)
    && forall k :: 0 <= k < o ==> DepId(modules[at].deps[k]) != to
                                  && (DepId(modules[at].deps[k]) in modules ==> DepId(modules[at].deps[k]) in visited)
  }

  lemma CompletedListsNothing(v: View, x: Id)
    requires DepsKept(v) && x in v.modules
    ensures v.modules[x].deps != [] ==> x in Pending(v.modules)
  {
  }

  lemma ScanStarts(modules: Modules, from: Id, to: Id, visited: set<Id>, queue: seq<Id>, at: Id)
    requires Searching(modules, from, to, visited, [at] + queue) && at !in queue
    requires at in modules && (modules[at].deps != [] ==> at in Pending(modules))
    ensures Scanning(modules, from, to, visited, queue, at, 0)
  {
    hide Reaches, Step;
    var q := [at] + queue;
    assert at in q;
    assert forall x :: x in q <==> x == at || x in queue;
    assert forall i :: 0 <= i < |queue| ==> queue[i] == q[i + 1];
  }

  lemma DepIsReached(modules: Modules, from: Id, to: Id, visited: set<Id>, queue: seq<Id>, at: Id, o: int)
    requires Scanning(modules, from, to, visited, queue, at, o) && o < |modules[at].deps|
    ensures Reaches(Pending(modules), from, DepId(modules[at].deps[o]))
  {
    hide Reaches;
    var g := Pending(modules);
    assert g[at] == modules[at].deps;
    assert Step(g, at, DepId(modules[at].deps[o]));
    ReachesOn(g, from, at, DepId(modules[at].deps[o]));
  }

  lemma ScanStep(modules: Modules, from: Id, to: Id, visited: set<Id>, queue: seq<Id>, at: Id, o: int)
    requires Scanning(modules, from, to, visited, queue, at, o) && o < |modules[at].deps|
    requires DepId(modules[at].deps[o]) != to && Reaches(Pending(modules), from, DepId(modules[at].deps[o]))
    ensures var d := DepId(modules[at].deps[o]);
            if d in modules && d !in visited
            then Scanning(modules, from, to, visited + {d}, queue + [d], at, o + 1)
            else Scanning(modules, from, to, visited, queue, at, o + 1)
  {
    hide Reaches, Step;
    var d := DepId(modules[at].deps[o]);
    if d in modules && d !in visited {
      OneMore(queue, d);
    }
  }

  lemma ScanEnds(modules: Modules, from: Id, to: Id, visited: set<Id>, queue: seq<Id>, at: Id)
    requires at in modules && Scanning(modules, from, to, visited, queue, at, |modules[at].deps|)
    ensures Searching(modules, from, to, visited, queue)
  {
    hide Reaches;
    var g := Pending(modules);
    forall x, y | x in visited && x !in queue && Step(g, x, y)
      ensures y != to && (y in g ==> y in visited)
    {
      if x == at {
        var k :| 0 <= k < |g[x]| && DepId(g[x][k]) == y;
        assert g[x] == modules[at].deps;
      }
    }
  }

  lemma UndefinedReachesNothing(modules: Modules, from: Id, to: Id)
    requires from !in modules
    ensures !Reaches(Pending(modules), from, to)
  {
    ClosedSetAvoids(Pending(modules), {from}, from, to);
  }

  lemma SearchStarts(modules: Modules, from: Id, to: Id)
    requires from in modules
    ensures Searching(modules, from, to, {from}, [from])
  {
  }

  lemma HeadOfQueue(modules: Modules, from: Id, to: Id, visited: set<Id>, queue: seq<Id>)
    requires Searching(modules, from, to, visited, queue) && |queue| > 0
    ensures queue[0] in modules && queue[0] !in queue[1..]
  {
    assert queue[0] in queue;
  }

  lemma VisitedIsDefined(modules: Modules, from: Id, to: Id, visited: set<Id>, queue: seq<Id>)
    requires Searching(modules, from, to, visited, queue)
    ensures visited <= modules.Keys
  {
  }

  lemma SearchEnds(modules: Modules, from: Id, to: Id, visited: set<Id>)
    requires Searching(modules, from, to, visited, [])
    ensures !Reaches(Pending(modules), from, to)
  {
    ClosedSetAvoids(Pending(modules), visited, from, to);
  }

  lemma FewerLeft(all: set<Id>, seen: set<Id>, more: set<Id>)
    requires seen < more <= all
    ensures |all - more| < |all - seen|
  {
    assert exists x :: x in more && x !in seen;
    var x :| x in more && x !in seen;
    Subset(all - more, all - seen - {x});
  }

  lemma {:induction false} Subset(s: set<Id>, t: set<Id>)
    requires s <= t
    ensures |s| <= |t|
  {
    if s != {} {
      var x :| x in s;
      Subset(s - {x}, t - {x});
    }
  }
}
