/** Reachability in finite directed graphs, cyclic ones included. */
module Graph {
  import opened Common

  type Edges<T> = map<T, set<T>>

  function Targets<T>(edges: Edges<T>, x: T): set<T> {
    if x in edges then edges[x] else {}
  }

  ghost predicate IsPath<T>(edges: Edges<T>, p: seq<T>) {
    |p| >= 2 && forall i :: 0 <= i < |p| - 1 ==> p[i + 1] in Targets(edges, p[i])
  }

  ghost predicate IsPathFromTo<T>(edges: Edges<T>, p: seq<T>, x: T, y: T) {
    IsPath(edges, p) && p[0] == x && p[|p| - 1] == y
  }

  /** `y` is at the end of a path of one or more edges from `x`. */
  ghost predicate Reachable<T(!new)>(edges: Edges<T>, x: T, y: T) {
    exists p :: IsPathFromTo(edges, p, x, y)
  }

  ghost predicate Closed<T>(edges: Edges<T>, s: set<T>) {
    forall x :: x in s ==> Targets(edges, x) <= s
  }

  lemma EdgeReaches<T(!new)>(edges: Edges<T>, x: T, y: T)
    requires y in Targets(edges, x)
    ensures Reachable(edges, x, y)
  {
    assert IsPathFromTo(edges, [x, y], x, y);
  }

  lemma ReachableThenEdge<T(!new)>(edges: Edges<T>, x: T, y: T, z: T)
    requires Reachable(edges, x, y) && z in Targets(edges, y)
    ensures Reachable(edges, x, z)
  {
    var p :| IsPathFromTo(edges, p, x, y);
    assert IsPathFromTo(edges, p + [z], x, z);
  }

  lemma {:induction false} ReachableTransitive<T(!new)>(edges: Edges<T>, x: T, y: T, z: T)
    requires Reachable(edges, x, y) && Reachable(edges, y, z)
    ensures Reachable(edges, x, z)
  {
    var p :| IsPathFromTo(edges, p, x, y);
    var q :| IsPathFromTo(edges, q, y, z);
    var r := p + q[1..];
    forall i | 0 <= i < |r| - 1 ensures r[i + 1] in Targets(edges, r[i]) {
      if i >= |p| - 1 {
        assert r[i] == q[i - |p| + 1] && r[i + 1] == q[i - |p| + 2];
      }
    }
    assert IsPathFromTo(edges, r, x, z);
  }

  /** A closed set that holds the first step of a path holds all later ones. */
  lemma {:induction false} ClosedHoldsPath<T>(edges: Edges<T>, s: set<T>, p: seq<T>)
    requires IsPath(edges, p) && Closed(edges, s)
    requires Targets(edges, p[0]) <= s
    ensures p[|p| - 1] in s
  {
    if |p| > 2 {
      ClosedHoldsPath(edges, s, p[1..]);
    }
  }

  lemma ClosedHoldsReachable<T(!new)>(edges: Edges<T>, s: set<T>, x: T, y: T)
    requires Closed(edges, s) && Targets(edges, x) <= s
    requires Reachable(edges, x, y)
    ensures y in s
  {
    var p :| IsPathFromTo(edges, p, x, y);
    ClosedHoldsPath(edges, s, p);
  }

  ghost function AllTargets<T>(edges: Edges<T>): set<T> {
    set x, y | x in edges && y in edges[x] :: y
  }

  /** A worklist over the graph: every node it has reached is reachable, and
      what is still open keeps the reached set from being closed. */
  ghost predicate SearchInvariant<T(!new)>(edges: Edges<T>, start: T, reached: set<T>, toVisit: seq<T>) {
    && (forall y :: y in reached || y in toVisit ==> Reachable(edges, start, y))
    && (forall y :: y in reached || y in toVisit ==> y in AllTargets(edges))
    && Targets(edges, start) <= reached + ToSet(toVisit)
    && (forall x :: x in reached ==> Targets(edges, x) <= reached + ToSet(toVisit))
  }

  lemma SearchDropsReached<T(!new)>(edges: Edges<T>, start: T, reached: set<T>, rest: seq<T>, name: T)
    requires SearchInvariant(edges, start, reached, rest + [name])
    requires name in reached
    ensures SearchInvariant(edges, start, reached, rest)
  {
    assert ToSet(rest + [name]) == ToSet(rest) + {name};
    assert forall y :: y in rest ==> y in rest + [name];
  }

  lemma SearchExpands<T(!new)>(edges: Edges<T>, start: T, reached: set<T>, rest: seq<T>, name: T, more: seq<T>)
    requires SearchInvariant(edges, start, reached, rest + [name])
    requires ToSet(more) == Targets(edges, name)
    ensures SearchInvariant(edges, start, reached + {name}, rest + more)
    ensures name in AllTargets(edges)
  {
    var before := rest + [name];
    assert name in before;
    assert ToSet(before) == ToSet(rest) + {name};
    assert ToSet(rest + more) == ToSet(rest) + ToSet(more);
    forall y | y in reached + {name} || y in rest + more
      ensures Reachable(edges, start, y) && y in AllTargets(edges)
    {
      if y in more {
        assert y in ToSet(more);
        ReachableThenEdge(edges, start, name, y);
      } else {
        assert y in reached || y in before;
      }
    }
  }

  /** Exactly the nodes one or more edges away from `start`; the decreasing
      measure shows that cycles do not keep the worklist from emptying. */
  method Search<T(!new, ==)>(start: T, edges: Edges<T>) returns (reached: set<T>)
    ensures forall y :: y in reached <==> Reachable(edges, start, y)
  {
    reached := {};
    var toVisit := Enumerate(Targets(edges, start));
    SearchStarts(edges, start, toVisit);
    while toVisit != []
      invariant SearchInvariant(edges, start, reached, toVisit)
      decreases |AllTargets(edges) - reached|, |toVisit|
    {
      var name, rest := toVisit[|toVisit| - 1], toVisit[..|toVisit| - 1];
      assert toVisit == rest + [name];
      if name in reached {
        SearchDropsReached(edges, start, reached, rest, name);
        toVisit := rest;
      } else {
        var more := Enumerate(Targets(edges, name));
        SearchExpands(edges, start, reached, rest, name, more);
        ghost var unreached := AllTargets(edges) - reached;
        assert AllTargets(edges) - (reached + {name}) == unreached - {name};
        reached := reached + {name};
        toVisit := rest + more;
      }
    }
    forall y | Reachable(edges, start, y) ensures y in reached {
      ClosedHoldsReachable(edges, reached, start, y);
    }
  }

  lemma SearchStarts<T(!new)>(edges: Edges<T>, start: T, toVisit: seq<T>)
    requires ToSet(toVisit) == Targets(edges, start)
    ensures SearchInvariant(edges, start, {}, toVisit)
  {
    forall y | y in toVisit ensures Reachable(edges, start, y) && y in AllTargets(edges) {
      assert y in ToSet(toVisit);
      EdgeReaches(edges, start, y);
    }
  }

  ghost predicate IsReversal<T(!new)>(edges: Edges<T>, back: Edges<T>) {
    forall x, y :: x in Targets(back, y) <==> y in Targets(edges, x)
  }

  /** `back` holds the edges out of `sources`, turned round. */
  ghost predicate Turned<T(!new)>(edges: Edges<T>, back: Edges<T>, sources: set<T>) {
    forall x, y :: x in Targets(back, y) <==> x in sources && y in Targets(edges, x)
  }

  /** Turns every edge round. */
  method Reversed<T(!new, ==)>(edges: Edges<T>) returns (back: Edges<T>)
    ensures IsReversal(edges, back)
  {
    back := map[];
    var sources := edges.Keys;
    while sources != {}
      invariant sources <= edges.Keys
      invariant Turned(edges, back, edges.Keys - sources)
      decreases |sources|
    {
      var source :| source in sources;
      back := TurnEdgesOf(source, edges, back, edges.Keys - sources);
      assert edges.Keys - sources + {source} == edges.Keys - (sources - {source});
      sources := sources - {source};
    }
  }

  method TurnEdgesOf<T(!new, ==)>(source: T, edges: Edges<T>, back: Edges<T>, ghost turned: set<T>)
    returns (more: Edges<T>)
    requires source in edges && source !in turned
    requires Turned(edges, back, turned)
    ensures Turned(edges, more, turned + {source})
  {
    hide Turned, WithSource, Targets;
    more := back;
    var targets := edges[source];
    WithNone(back, source);
    assert edges[source] - targets == {};
    while targets != {}
      invariant targets <= edges[source]
      invariant WithSource(back, more, source, edges[source] - targets)
      decreases targets
    {
      var target :| target in targets;
      WithOneMore(back, more, source, edges[source] - targets, target);
      more := more[target := Targets(more, target) + {source}];
      assert edges[source] - targets + {target} == edges[source] - (targets - {target});
      targets := targets - {target};
    }
    assert edges[source] - targets == edges[source];
    SourceTurned(edges, back, more, turned, source);
  }

  /** `more` is `back` with `source` added at each of `targets`. */
  ghost predicate WithSource<T(!new)>(back: Edges<T>, more: Edges<T>, source: T, targets: set<T>) {
    forall y :: Targets(more, y) == Targets(back, y) + if y in targets then {source} else {}
  }

  lemma WithNone<T(!new)>(back: Edges<T>, source: T)
    ensures WithSource(back, back, source, {})
  {
  }

  lemma WithOneMore<T(!new)>(back: Edges<T>, more: Edges<T>, source: T, targets: set<T>, target: T)
    requires WithSource(back, more, source, targets)
    ensures WithSource(back, more[target := Targets(more, target) + {source}], source, targets + {target})
  {
    var after := more[target := Targets(more, target) + {source}];
    forall y ensures Targets(after, y) == Targets(back, y) + if y in targets + {target} then {source} else {} {
      assert Targets(more, y) == Targets(back, y) + if y in targets then {source} else {};
    }
  }

  lemma SourceTurned<T(!new)>(edges: Edges<T>, back: Edges<T>, more: Edges<T>, turned: set<T>, source: T)
    requires source in edges && Turned(edges, back, turned) && WithSource(back, more, source, edges[source])
    ensures Turned(edges, more, turned + {source})
  {
    forall x, y ensures x in Targets(more, y) <==> x in turned + {source} && y in Targets(edges, x) {
      assert Targets(more, y) == Targets(back, y) + if y in edges[source] then {source} else {};
    }
  }

  function Backwards<T>(p: seq<T>): (q: seq<T>)
    ensures |q| == |p|
    ensures forall i :: 0 <= i < |p| ==> q[i] == p[|p| - 1 - i]
  {
    seq(|p|, i requires 0 <= i < |p| => p[|p| - 1 - i])
  }

  lemma ReversedPath<T(!new)>(edges: Edges<T>, back: Edges<T>, x: T, y: T)
    requires IsReversal(edges, back) && Reachable(edges, x, y)
    ensures Reachable(back, y, x)
  {
    var p :| IsPathFromTo(edges, p, x, y);
    var q := Backwards(p);
    forall i | 0 <= i < |q| - 1 ensures q[i + 1] in Targets(back, q[i]) {
      var j := |p| - 2 - i;
      assert p[j + 1] in Targets(edges, p[j]);
      assert q[i] == p[j + 1] && q[i + 1] == p[j];
    }
    assert IsPathFromTo(back, q, y, x);
  }

  /** Reaching in the reversed graph is being reached in the original one. */
  lemma ReversedReachability<T(!new)>(edges: Edges<T>, back: Edges<T>, x: T, y: T)
    requires IsReversal(edges, back)
    ensures Reachable(back, y, x) <==> Reachable(edges, x, y)
  {
    if Reachable(edges, x, y) {
      ReversedPath(edges, back, x, y);
    }
    if Reachable(back, y, x) {
      assert IsReversal(back, edges);
      ReversedPath(back, edges, y, x);
    }
  }

  /******* Zero or more edges from a set of seeds *******/

  ghost predicate ReachedFrom<T(!new)>(edges: Edges<T>, seeds: set<T>, y: T) {
    y in seeds || exists x :: x in seeds && Reachable(edges, x, y)
  }

  lemma ReachedThenEdge<T(!new)>(edges: Edges<T>, seeds: set<T>, y: T, z: T)
    requires ReachedFrom(edges, seeds, y) && z in Targets(edges, y)
    ensures ReachedFrom(edges, seeds, z)
  {
    if y in seeds {
      EdgeReaches(edges, y, z);
    } else {
      var x :| x in seeds && Reachable(edges, x, y);
      ReachableThenEdge(edges, x, y, z);
    }
  }

  /** A closed set that holds the seeds holds all they reach. */
  lemma ClosedHoldsReached<T(!new)>(edges: Edges<T>, s: set<T>, seeds: set<T>, y: T)
    requires Closed(edges, s) && seeds <= s && ReachedFrom(edges, seeds, y)
    ensures y in s
  {
    if y !in seeds {
      var x :| x in seeds && Reachable(edges, x, y);
      ClosedHoldsReachable(edges, s, x, y);
    }
  }

  /** A worklist that visits nodes once: all it saw is reached, and what a
      visited node leads to has been visited or is queued. */
  ghost predicate Visiting<T(!new)>(edges: Edges<T>, seeds: set<T>, visited: set<T>, queue: seq<T>) {
    && (forall y :: y in visited || y in queue ==> ReachedFrom(edges, seeds, y))
    && seeds <= visited + ToSet(queue)
    && (forall x :: x in visited ==> Targets(edges, x) <= visited + ToSet(queue))
  }

  lemma VisitingStarts<T(!new)>(edges: Edges<T>, seeds: seq<T>)
    ensures Visiting(edges, ToSet(seeds), {}, seeds)
  {
    assert forall y :: y in seeds <==> y in ToSet(seeds);
  }

  lemma VisitingSkips<T(!new)>(edges: Edges<T>, seeds: set<T>, visited: set<T>, rest: seq<T>, node: T)
    requires Visiting(edges, seeds, visited, rest + [node]) && node in visited
    ensures Visiting(edges, seeds, visited, rest)
  {
    assert ToSet(rest + [node]) == ToSet(rest) + {node};
    assert forall y :: y in rest ==> y in rest + [node];
  }

  lemma VisitingGoesOn<T(!new)>(
    edges: Edges<T>, seeds: set<T>, visited: set<T>, rest: seq<T>, node: T, more: seq<T>)
    requires Visiting(edges, seeds, visited, rest + [node]) && ToSet(more) == Targets(edges, node)
    ensures Visiting(edges, seeds, visited + {node}, rest + more)
    ensures ReachedFrom(edges, seeds, node)
  {
    assert node in rest + [node];
    assert ToSet(rest + [node]) == ToSet(rest) + {node};
    assert ToSet(rest + more) == ToSet(rest) + ToSet(more);
    forall y | y in visited + {node} || y in rest + more ensures ReachedFrom(edges, seeds, y) {
      if y in more {
        assert y in ToSet(more);
        ReachedThenEdge(edges, seeds, node, y);
      } else {
        assert y in visited || y in rest + [node];
      }
    }
  }

  /** With nothing queued, exactly what the seeds reach has been visited. */
  lemma VisitingEnds<T(!new)>(edges: Edges<T>, seeds: set<T>, visited: set<T>)
    requires Visiting(edges, seeds, visited, [])
    ensures forall y :: y in visited <==> ReachedFrom(edges, seeds, y)
  {
    forall y | ReachedFrom(edges, seeds, y) ensures y in visited {
      ClosedHoldsReached(edges, visited, seeds, y);
    }
  }

  /** Two sets of seeds reach what either reaches. */
  lemma ReachedFromUnion<T(!new)>(edges: Edges<T>, a: set<T>, b: set<T>, y: T)
    ensures ReachedFrom(edges, a + b, y) <==> ReachedFrom(edges, a, y) || ReachedFrom(edges, b, y)
  {
  }
}
