/** `computeClusters`: the connected components of the navigation graph. */
module Clusters {

  datatype Link = Link(from: string, to: string)

  // ---- what a cluster is ----

  predicate Linked(edges: seq<Link>, a: string, b: string) {
    Link(a, b) in edges || Link(b, a) in edges
  }

  predicate IsWalk(edges: seq<Link>, p: seq<string>) {
    p != [] && forall i | 0 <= i < |p| - 1 :: Linked(edges, p[i], p[i + 1])
  }

  /** An undirected path of edges joins the two. */
  ghost predicate Connected(edges: seq<Link>, a: string, b: string) {
    exists p :: IsWalk(edges, p) && p[0] == a && p[|p| - 1] == b
  }

  ghost predicate ClosedUnderLinks(edges: seq<Link>, s: set<string>) {
    forall a, b | a in s && Linked(edges, a, b) :: b in s
  }

  lemma {:induction false} ConnectedSelf(edges: seq<Link>, a: string)
    ensures Connected(edges, a, a)
  {
    var p := [a];
    assert IsWalk(edges, p) && p[0] == a && p[|p| - 1] == a;
  }

  lemma {:induction false} ConnectedStep(edges: seq<Link>, a: string, b: string, c: string)
    requires Connected(edges, a, b) && Linked(edges, b, c)
    ensures Connected(edges, a, c)
  {
    var p :| IsWalk(edges, p) && p[0] == a && p[|p| - 1] == b;
    var q := p + [c];
    assert IsWalk(edges, q) && q[0] == a && q[|q| - 1] == c;
  }

  lemma {:induction false} ConnectedBack(edges: seq<Link>, a: string, b: string)
    requires Connected(edges, a, b)
    ensures Connected(edges, b, a)
  {
    var p :| IsWalk(edges, p) && p[0] == a && p[|p| - 1] == b;
    var q := seq(|p|, i requires 0 <= i < |p| => p[|p| - 1 - i]);
    forall i | 0 <= i < |q| - 1 ensures Linked(edges, q[i], q[i + 1])
    {
      assert Linked(edges, p[|p| - 2 - i], p[|p| - 1 - i]);
    }
    assert IsWalk(edges, q) && q[0] == b && q[|q| - 1] == a;
  }

  lemma {:induction false} ConnectedThrough(edges: seq<Link>, a: string, b: string, c: string)
    requires Connected(edges, a, b) && Connected(edges, b, c)
    ensures Connected(edges, a, c)
  {
    var p :| IsWalk(edges, p) && p[0] == a && p[|p| - 1] == b;
    var q :| IsWalk(edges, q) && q[0] == b && q[|q| - 1] == c;
    var r := p + q[1..];
    forall i | 0 <= i < |r| - 1 ensures Linked(edges, r[i], r[i + 1])
    {
      if i >= |p| - 1 {
        assert r[i] == q[i - |p| + 1] && r[i + 1] == q[i - |p| + 2];
      }
    }
    assert IsWalk(edges, r) && r[0] == a && r[|r| - 1] == c;
  }

  lemma {:induction false} WalkStaysInside(edges: seq<Link>, s: set<string>, p: seq<string>)
    requires ClosedUnderLinks(edges, s) && IsWalk(edges, p) && p[0] in s
    ensures p[|p| - 1] in s
    decreases |p|
  {
    if |p| > 1 {
      var front := p[..|p| - 1];
      assert forall i | 0 <= i < |front| - 1 :: Linked(edges, p[i], p[i + 1]);
      WalkStaysInside(edges, s, front);
      assert Linked(edges, p[|p| - 2], p[|p| - 1]);
    }
  }

  lemma {:induction false} ConnectedStaysInside(edges: seq<Link>, s: set<string>, a: string, b: string)
    requires ClosedUnderLinks(edges, s) && a in s && Connected(edges, a, b)
    ensures b in s
  {
    var p :| IsWalk(edges, p) && p[0] == a && p[|p| - 1] == b;
    WalkStaysInside(edges, s, p);
  }

  // ---- the adjacency map ----

  ghost predicate IsAdjacency(names: seq<string>, edges: seq<Link>, adjacency: map<string, set<string>>) {
    && (forall n :: n in adjacency <==> n in names)
    && (forall a, b | a in adjacency :: b in adjacency[a] <==> Linked(edges, a, b))
  }

  method Adjacency(names: seq<string>, edges: seq<Link>) returns (adjacency: map<string, set<string>>)
    ensures IsAdjacency(names, edges, adjacency)
  {
    adjacency := map[];
    for i := 0 to |names|
      invariant forall n :: n in adjacency <==> n in names[..i]
      invariant forall n | n in adjacency :: adjacency[n] == {}
    {
      adjacency := adjacency[names[i] := {}];
    }
    for i := 0 to |edges|
      invariant forall n :: n in adjacency <==> n in names
      invariant forall a, b | a in adjacency :: b in adjacency[a] <==> Linked(edges[..i], a, b)
    {
      var e := edges[i];
      var before := adjacency;
      if e.from in adjacency {
        adjacency := adjacency[e.from := adjacency[e.from] + {e.to}];
      }
      if e.to in adjacency {
        adjacency := adjacency[e.to := adjacency[e.to] + {e.from}];
      }
      AddEdge(names, edges, i, before, adjacency);
    }
    assert edges[..|edges|] == edges;
  }

  lemma {:induction false} AddEdge(names: seq<string>, edges: seq<Link>, i: nat, before: map<string, set<string>>,
                                   after: map<string, set<string>>)
    requires i < |edges| && after.Keys == before.Keys
    requires forall a, b | a in before :: b in before[a] <==> Linked(edges[..i], a, b)
    requires forall a | a in before ::
               after[a] == before[a] + (if a == edges[i].from then {edges[i].to} else {})
                                     + (if a == edges[i].to then {edges[i].from} else {})
    ensures forall a, b | a in after :: b in after[a] <==> Linked(edges[..i + 1], a, b)
  {
    assert edges[..i + 1] == edges[..i] + [edges[i]];
  }

  // ---- the components ----

  ghost function Union(clusters: seq<seq<string>>): set<string> {
    if clusters == [] then {}
    else Union(clusters[..|clusters| - 1]) + Members(clusters[|clusters| - 1])
  }

  ghost function Members(cluster: seq<string>): set<string> {
    set n | n in cluster
  }

  predicate Distinct(s: seq<string>) {
    s == [] || (s[|s| - 1] !in s[..|s| - 1] && Distinct(s[..|s| - 1]))
  }

  /** The clusters found so far: each is all of one component, and no two meet. */
  ghost predicate AreComponents(edges: seq<Link>, clusters: seq<seq<string>>) {
    clusters != [] ==>
      var last := |clusters| - 1;
      && AreComponents(edges, clusters[..last])
      && IsComponent(edges, clusters[last])
      && Members(clusters[last]) !! Union(clusters[..last])
      && ClosedUnderLinks(edges, Union(clusters))
  }

  ghost predicate IsComponent(edges: seq<Link>, cluster: seq<string>) {
    && cluster != []
    && Distinct(cluster)
    && forall n | n in cluster :: Connected(edges, cluster[0], n)
  }

  /** What the inner loop knows: the cluster and the stack hang together with the
      start, and whatever links lead out of the cluster lead to seen names or wait. */
  ghost predicate Growing(edges: seq<Link>, names: seq<string>, start: string, before: set<string>,
                          seen: set<string>, cluster: seq<string>, stack: seq<string>) {
    && start !in before && ClosedUnderLinks(edges, before)
    && seen == before + Members(cluster) && before !! Members(cluster)
    && (forall n | n in seen :: n in names)
    && Distinct(cluster)
    && (cluster == [] ==> stack == [start])
    && (cluster != [] ==> cluster[0] == start)
    && (forall n | n in cluster || n in stack :: Connected(edges, start, n) && n in names)
    && (forall a, b | a in cluster && Linked(edges, a, b) :: b in seen || b in stack)
  }

  predicate EndpointsAreNames(names: seq<string>, edges: seq<Link>) {
    forall e | e in edges :: e.from in names && e.to in names
  }

  /** Looks at one name from the stack. */
  method Visit(names: seq<string>, edges: seq<Link>, adjacency: map<string, set<string>>, ghost start: string,
               ghost before: set<string>, seen: set<string>, cluster: seq<string>, stack: seq<string>)
    returns (seen': set<string>, cluster': seq<string>, stack': seq<string>)
    requires IsAdjacency(names, edges, adjacency) && EndpointsAreNames(names, edges)
    requires stack != [] && Growing(edges, names, start, before, seen, cluster, stack)
    ensures Growing(edges, names, start, before, seen', cluster', stack')
    ensures (seen' == seen && |stack'| < |stack|) || (exists n :: n in names && n !in seen && seen' == seen + {n})
  {
    var current := stack[|stack| - 1];
    stack' := stack[..|stack| - 1];
    assert stack == stack' + [current];
    seen', cluster' := seen, cluster;
    if current in seen {
      return;
    }
    seen' := seen + {current};
    cluster' := cluster + [current];
    assert current in names;
    var neighbours := if current in adjacency then adjacency[current] else {};
    ghost var rest := stack';
    while neighbours != {}
      invariant forall b | b in neighbours :: Linked(edges, current, b)
      invariant forall b | Linked(edges, current, b) :: b in neighbours || b in seen' || b in stack'
      invariant forall n | n in rest :: n in stack'
      invariant forall n | n in stack' :: n in rest || Linked(edges, current, n)
      decreases neighbours
    {
      var next :| next in neighbours;
      neighbours := neighbours - {next};
      if next !in seen' {
        stack' := stack' + [next];
      }
    }
    Grown(names, edges, start, before, seen, cluster, stack, current, stack');
  }

  lemma {:induction false} Grown(names: seq<string>, edges: seq<Link>, start: string, before: set<string>,
                                 seen: set<string>, cluster: seq<string>, stack: seq<string>, current: string,
                                 stack': seq<string>)
    requires Growing(edges, names, start, before, seen, cluster, stack) && EndpointsAreNames(names, edges)
    requires stack != [] && current == stack[|stack| - 1] && current !in seen
    requires forall n | n in stack[..|stack| - 1] :: n in stack'
    requires forall n | n in stack' :: n in stack[..|stack| - 1] || Linked(edges, current, n)
    requires forall b | Linked(edges, current, b) :: b in seen + {current} || b in stack'
    ensures Growing(edges, names, start, before, seen + {current}, cluster + [current], stack')
  {
    var front := stack[..|stack| - 1];
    assert stack == front + [current];
    assert Members(cluster + [current]) == Members(cluster) + {current};
    assert (cluster + [current])[..|cluster|] == cluster;
    forall n | n in stack' ensures Connected(edges, start, n) && n in names
    {
      if n !in front {
        ConnectedStep(edges, start, current, n);
      }
    }
  }

  method ComputeClusters(names: seq<string>, edges: seq<Link>) returns (clusters: seq<seq<string>>)
    requires EndpointsAreNames(names, edges)
    ensures AreComponents(edges, clusters)
    ensures Union(clusters) == set n | n in names
  {
    hide ClosedUnderLinks, Connected, Linked, IsWalk;
    var adjacency := Adjacency(names, edges);
    var seen: set<string> := {};
    clusters := [];
    NothingIsClosed(edges);
    for i := 0 to |names|
      invariant AreComponents(edges, clusters) && ClosedUnderLinks(edges, Union(clusters))
      invariant seen == Union(clusters)
      invariant forall n | n in seen :: n in names
      invariant forall n | n in names[..i] :: n in seen
    {
      var name := names[i];
      assert names[..i + 1] == names[..i] + [name];
      if name !in seen {
        var cluster: seq<string> := [];
        var stack := [name];
        ghost var before := seen;
        ConnectedSelf(edges, name);
        while stack != []
          invariant Growing(edges, names, name, before, seen, cluster, stack)
          decreases (set n | n in names) - seen, |stack|
        {
          seen, cluster, stack := Visit(names, edges, adjacency, name, before, seen, cluster, stack);
        }
        FinishCluster(names, edges, name, before, seen, cluster, clusters);
        clusters := clusters + [cluster];
      }
    }
    assert names[..|names|] == names;
  }

  lemma {:induction false} NothingIsClosed(edges: seq<Link>)
    ensures ClosedUnderLinks(edges, {})
  {
  }

  lemma {:induction false} FinishCluster(names: seq<string>, edges: seq<Link>, start: string, before: set<string>,
                                         seen: set<string>, cluster: seq<string>, clusters: seq<seq<string>>)
    requires Growing(edges, names, start, before, seen, cluster, [])
    requires before == Union(clusters) && AreComponents(edges, clusters)
    ensures AreComponents(edges, clusters + [cluster])
    ensures Union(clusters + [cluster]) == seen && ClosedUnderLinks(edges, seen)
    ensures start in seen
  {
    hide Connected, IsWalk;
    assert (clusters + [cluster])[..|clusters|] == clusters;
  }

  // ---- what the result means ----

  ghost predicate Together(clusters: seq<seq<string>>, a: string, b: string) {
    exists i :: 0 <= i < |clusters| && a in clusters[i] && b in clusters[i]
  }

  lemma {:induction false} InSomeCluster(clusters: seq<seq<string>>, a: string)
    requires a in Union(clusters)
    ensures exists i :: 0 <= i < |clusters| && a in clusters[i]
  {
    var last := |clusters| - 1;
    if a !in clusters[last] {
      InSomeCluster(clusters[..last], a);
      var i :| 0 <= i < last && a in clusters[..last][i];
      assert a in clusters[i];
    }
  }

  /** Two names share a cluster exactly when a path of edges joins them. */
  lemma {:induction false} TogetherExactly(edges: seq<Link>, clusters: seq<seq<string>>, a: string, b: string)
    requires AreComponents(edges, clusters) && a in Union(clusters) && b in Union(clusters)
    ensures Together(clusters, a, b) <==> Connected(edges, a, b)
  {
    hide Connected, ClosedUnderLinks;
    var last := |clusters| - 1;
    var front := clusters[..last];
    if a in Union(front) && b in Union(front) {
      TogetherExactly(edges, front, a, b);
      TogetherInFront(clusters, a, b);
    } else if a in clusters[last] && b in clusters[last] {
      ConnectedBack(edges, clusters[last][0], a);
      ConnectedThrough(edges, a, clusters[last][0], b);
      assert Together(clusters, a, b);
    } else {
      ApartFromFront(edges, clusters, a, b);
    }
  }

  lemma {:induction false} TogetherInFront(clusters: seq<seq<string>>, a: string, b: string)
    requires clusters != [] && Members(clusters[|clusters| - 1]) !! Union(clusters[..|clusters| - 1])
    requires a in Union(clusters[..|clusters| - 1])
    ensures Together(clusters, a, b) <==> Together(clusters[..|clusters| - 1], a, b)
  {
    var last := |clusters| - 1;
    assert a !in Members(clusters[last]) && a !in clusters[last];
    if Together(clusters, a, b) {
      var i :| 0 <= i < |clusters| && a in clusters[i] && b in clusters[i];
      assert i < last;
      assert clusters[..last][i] == clusters[i];
    }
    if Together(clusters[..last], a, b) {
      var i :| 0 <= i < last && a in clusters[..last][i] && b in clusters[..last][i];
      assert clusters[i] == clusters[..last][i];
    }
  }

  lemma {:induction false} MemberIsInUnion(clusters: seq<seq<string>>, i: nat, a: string)
    requires i < |clusters| && a in clusters[i]
    ensures a in Union(clusters)
  {
    var last := |clusters| - 1;
    if i < last {
      assert clusters[..last][i] == clusters[i];
      MemberIsInUnion(clusters[..last], i, a);
    }
  }

  lemma {:induction false} ApartFromFront(edges: seq<Link>, clusters: seq<seq<string>>, a: string, b: string)
    requires AreComponents(edges, clusters) && clusters != []
    requires var front := Union(clusters[..|clusters| - 1]);
             var rest := Members(clusters[|clusters| - 1]);
             (a in front && b in rest) || (a in rest && b in front)
    ensures !Together(clusters, a, b) && !Connected(edges, a, b)
  {
    hide Connected, ClosedUnderLinks;
    var last := |clusters| - 1;
    var front := clusters[..last];
    FrontIsClosed(edges, front);
    if Connected(edges, a, b) {
      if a in Union(front) {
        ConnectedStaysInside(edges, Union(front), a, b);
      } else {
        ConnectedBack(edges, a, b);
        ConnectedStaysInside(edges, Union(front), b, a);
      }
    }
    if Together(clusters, a, b) {
      var i :| 0 <= i < |clusters| && a in clusters[i] && b in clusters[i];
      if i < last {
        assert front[i] == clusters[i];
        MemberIsInUnion(front, i, a);
        MemberIsInUnion(front, i, b);
      }
    }
  }

  lemma {:induction false} FrontIsClosed(edges: seq<Link>, clusters: seq<seq<string>>)
    requires AreComponents(edges, clusters)
    ensures ClosedUnderLinks(edges, Union(clusters))
  {
  }
}
