/** The connected components the task dashboard groups nodes by
    (`findConnectedComponents` and `dfs` in src/components/TaskDashboard.tsx):
    a depth-first search over the edge list, following every edge in both
    directions, with a visited set and a component list that the search
    grows as it goes. */
module Components {
  import opened Workflow

  /** Every id that `x` is joined to by an edge, either way round, is in `s`. */
  predicate NeighboursIn(edges: seq<Edge>, x: string, s: set<string>) {
    forall j :: 0 <= j < |edges| ==>
      (edges[j].source == x ==> edges[j].target in s) &&
      (edges[j].target == x ==> edges[j].source in s)
  }

  /** Every id in `s` has all its neighbours in `s`. */
  predicate Closed(edges: seq<Edge>, s: set<string>) {
    forall x :: x in s ==> NeighboursIn(edges, x, s)
  }

  predicate Distinct(s: seq<string>) {
    forall i, j :: 0 <= i < j < |s| ==> s[i] != s[j]
  }

  function Elems(s: seq<string>): set<string> {
    set x | x in s
  }

  function Endpoints(edges: seq<Edge>): set<string> {
    (set j | 0 <= j < |edges| :: edges[j].source) + (set j | 0 <= j < |edges| :: edges[j].target)
  }

  function NodeIdSet(nodes: seq<Node>): set<string> {
    set j | 0 <= j < |nodes| :: nodes[j].id
  }

  /** The components one after another, as the ids they hold in order. */
  function Flatten(components: seq<seq<string>>): seq<string> {
    if components == [] then []
    else Flatten(components[..|components| - 1]) + components[|components| - 1]
  }

  /** Some edge joins `a` and `b`, either way round. */
  predicate Adjacent(edges: seq<Edge>, a: string, b: string) {
    exists j :: 0 <= j < |edges| &&
      ((edges[j].source == a && edges[j].target == b) || (edges[j].source == b && edges[j].target == a))
  }

  /** From position `lo` on, every id of `s` after the first is joined by an
      edge to an id before it (and at or after `lo`): the search tree. */
  predicate JoinedFrom(edges: seq<Edge>, s: seq<string>, lo: nat) {
    forall k :: lo < k < |s| ==> exists m :: lo <= m < k && Adjacent(edges, s[m], s[k])
  }

  /** A walk along edges, each step in either direction. */
  predicate Path(edges: seq<Edge>, p: seq<string>) {
    |p| > 0 && forall k :: 0 < k < |p| ==> Adjacent(edges, p[k - 1], p[k])
  }

  /** A sequence joined in this way is connected: each of its ids is reached
      from the first by a walk along edges. */
  lemma {:induction false} ReachedFromFirst(edges: seq<Edge>, s: seq<string>, k: nat) returns (p: seq<string>)
    requires JoinedFrom(edges, s, 0) && k < |s|
    ensures Path(edges, p) && p[0] == s[0] && p[|p| - 1] == s[k]
    decreases k
  {
    if k == 0 {
      p := [s[0]];
    } else {
      var m :| 0 <= m < k && Adjacent(edges, s[m], s[k]);
      var q := ReachedFromFirst(edges, s, m);
      p := q + [s[k]];
      forall i | 0 < i < |q|
        ensures Adjacent(edges, p[i - 1], p[i])
      {
        assert p[i - 1] == q[i - 1] && p[i] == q[i];
      }
    }
  }

  lemma NeighboursInGrows(edges: seq<Edge>, x: string, s: set<string>, t: set<string>)
    requires NeighboursIn(edges, x, s) && s <= t
    ensures NeighboursIn(edges, x, t)
  {
  }

  /** `component'` is `component` followed by ids that were not visited
      before, each once, and `visited'` is `visited` plus exactly those ids. */
  predicate Pushed(visited: set<string>, component: seq<string>, visited': set<string>, component': seq<string>) {
    |component'| > |component| && component'[..|component|] == component
    && visited' == visited + Elems(component'[|component|..])
    && Distinct(component'[|component|..])
    && (forall k :: |component| <= k < |component'| ==> component'[k] !in visited)
  }

  /** Two successive pushes make one. */
  lemma PushedTwice(visited: set<string>, component: seq<string>, current: set<string>, pushed: seq<string>,
                    visited': set<string>, component': seq<string>)
    requires Pushed(visited, component, current, pushed)
    requires Pushed(current, pushed, visited', component')
    ensures Pushed(visited, component, visited', component')
    ensures component'[..|pushed|] == pushed
  {
    var n, m := |component|, |pushed|;
    assert component'[..n] == component'[..m][..n];
    assert component'[n..] == pushed[n..] + component'[m..];
    assert Elems(component'[n..]) == Elems(pushed[n..]) + Elems(component'[m..]);
    DistinctJoin(pushed[n..], component'[m..], current - visited);
    assert forall k :: n <= k < |component'| ==> component'[k] == component'[n..][k - n];
  }

  /** Two runs of distinct ids, the second avoiding a set that holds the
      first, join into one run of distinct ids. */
  lemma DistinctJoin(s: seq<string>, t: seq<string>, marked: set<string>)
    requires Distinct(s) && Distinct(t) && Elems(s) <= marked
    requires forall k :: 0 <= k < |t| ==> t[k] !in marked
    ensures Distinct(s + t)
  {
    forall i, j | 0 <= i < j < |s + t|
      ensures (s + t)[i] != (s + t)[j]
    {
      if i < |s| <= j {
        assert (s + t)[i] == s[i] && s[i] in Elems(s);
        assert (s + t)[j] == t[j - |s|];
      }
    }
  }

  /** `dfs(nodeId, visited, component)`: mark `nodeId`, push it, then for each
      edge in order descend into the unvisited far end of every edge that
      leaves or enters `nodeId`. The ids it pushes are new, distinct, start
      with `nodeId`, each hangs off an earlier one by an edge, and each has
      all its neighbours visited on return. */
  method Dfs(edges: seq<Edge>, nodeId: string, visited: set<string>, component: seq<string>, ghost universe: set<string>)
    returns (visited': set<string>, component': seq<string>)
    requires nodeId !in visited && nodeId in universe && Endpoints(edges) <= universe
    ensures Pushed(visited, component, visited', component') && component'[|component|] == nodeId
    ensures forall k :: |component| <= k < |component'| ==> NeighboursIn(edges, component'[k], visited')
    ensures visited' <= visited + universe
    ensures JoinedFrom(edges, component', |component|)
    decreases universe - visited, 0
  {
    visited' := visited + {nodeId};
    component' := component + [nodeId];
    assert component'[|component|..] == [nodeId];
    var i := 0;
    while i < |edges|
      invariant 0 <= i <= |edges|
      invariant Pushed(visited, component, visited', component') && component'[|component|] == nodeId
      invariant forall k :: |component| < k < |component'| ==> NeighboursIn(edges, component'[k], visited')
      invariant Settled(edges, nodeId, i, visited')
      invariant visited' <= visited + universe
      invariant JoinedFrom(edges, component', |component|)
    {
      var edge := edges[i];
      ghost var before := visited';
      assert edge.source in Endpoints(edges) && edge.target in Endpoints(edges);
      if edge.source == nodeId && !(edge.target in visited') {
        assert Adjacent(edges, nodeId, edge.target) by {
          assert edges[i] == edge;
        }
        DescendDecreases(visited, visited', nodeId, universe);
        visited', component' := Descend(edges, edge.target, nodeId, visited, component, visited', component', universe);
      }
      if edge.target == nodeId && !(edge.source in visited') {
        assert Adjacent(edges, nodeId, edge.source) by {
          assert edges[i] == edge;
        }
        DescendDecreases(visited, visited', nodeId, universe);
        visited', component' := Descend(edges, edge.source, nodeId, visited, component, visited', component', universe);
      }
      SettledStep(edges, nodeId, i, before, visited');
      i := i + 1;
    }
  }

  /** The first `i` edges have their far ends from `nodeId` in `s`. */
  predicate Settled(edges: seq<Edge>, nodeId: string, i: nat, s: set<string>)
    requires i <= |edges|
  {
    forall j :: 0 <= j < i ==>
      (edges[j].source == nodeId ==> edges[j].target in s) &&
      (edges[j].target == nodeId ==> edges[j].source in s)
  }

  /** Marking more ids keeps the settled edges settled, and one more edge
      whose far ends are marked joins them. */
  lemma SettledStep(edges: seq<Edge>, nodeId: string, i: nat, s: set<string>, t: set<string>)
    requires i < |edges| && Settled(edges, nodeId, i, s) && s <= t
    requires edges[i].source == nodeId ==> edges[i].target in t
    requires edges[i].target == nodeId ==> edges[i].source in t
    ensures Settled(edges, nodeId, i + 1, t)
  {
  }

  /** Once `nodeId` is marked, fewer ids of the universe are left unvisited. */
  lemma DescendDecreases(visited: set<string>, current: set<string>, nodeId: string, universe: set<string>)
    requires visited <= current && nodeId in current && nodeId !in visited && nodeId in universe
    ensures universe - current < universe - visited
  {
    assert nodeId in universe - visited;
  }

  /** One step of the loop in `dfs`: search from `next`, an unvisited
      neighbour of `nodeId`, and carry the loop invariant of the search from
      `nodeId` over the ids that search pushes. */
  method Descend(edges: seq<Edge>, next: string, ghost nodeId: string, ghost visited: set<string>, ghost component: seq<string>,
                 current: set<string>, pushed: seq<string>, ghost universe: set<string>)
    returns (visited': set<string>, component': seq<string>)
    requires next !in current && next in universe && Endpoints(edges) <= universe
    requires Pushed(visited, component, current, pushed) && pushed[|component|] == nodeId
    requires forall k :: |component| < k < |pushed| ==> NeighboursIn(edges, pushed[k], current)
    requires JoinedFrom(edges, pushed, |component|) && Adjacent(edges, nodeId, next)
    requires current <= visited + universe
    ensures Pushed(visited, component, visited', component') && component'[|component|] == nodeId
    ensures forall k :: |component| < k < |component'| ==> NeighboursIn(edges, component'[k], visited')
    ensures JoinedFrom(edges, component', |component|)
    ensures current <= visited' <= visited + universe && next in visited'
    decreases universe - current, 1
  {
    visited', component' := Dfs(edges, next, current, pushed, universe);
    Absorb(edges, visited, component, current, pushed, visited', component');
    JoinAbsorb(edges, component, pushed, component');
  }

  /** What one recursive call adds to the loop invariant of its caller. */
  lemma Absorb(edges: seq<Edge>, visited: set<string>, component: seq<string>, current: set<string>, pushed: seq<string>,
               visited': set<string>, component': seq<string>)
    requires Pushed(visited, component, current, pushed)
    requires Pushed(current, pushed, visited', component')
    requires forall k :: |component| < k < |pushed| ==> NeighboursIn(edges, pushed[k], current)
    requires forall k :: |pushed| <= k < |component'| ==> NeighboursIn(edges, component'[k], visited')
    ensures Pushed(visited, component, visited', component')
    ensures component'[..|pushed|] == pushed && current <= visited'
    ensures forall k :: |component| < k < |component'| ==> NeighboursIn(edges, component'[k], visited')
  {
    PushedTwice(visited, component, current, pushed, visited', component');
    forall k | |component| < k < |component'|
      ensures NeighboursIn(edges, component'[k], visited')
    {
      if k < |pushed| {
        assert component'[k] == pushed[k];
        NeighboursInGrows(edges, pushed[k], current, visited');
      }
    }
  }

  /** The ids one recursive call pushes hang off the id that made the call,
      so the caller's search tree grows by a subtree. */
  lemma JoinAbsorb(edges: seq<Edge>, component: seq<string>, pushed: seq<string>, component': seq<string>)
    requires |component| < |pushed| < |component'| && component'[..|pushed|] == pushed
    requires JoinedFrom(edges, pushed, |component|)
    requires JoinedFrom(edges, component', |pushed|)
    requires Adjacent(edges, pushed[|component|], component'[|pushed|])
    ensures JoinedFrom(edges, component', |component|)
  {
    forall k | |component| < k < |component'|
      ensures exists m :: |component| <= m < k && Adjacent(edges, component'[m], component'[k])
    {
      if k < |pushed| {
        assert component'[k] == pushed[k];
        var m :| |component| <= m < k && Adjacent(edges, pushed[m], pushed[k]);
        assert component'[m] == pushed[m];
      } else if k == |pushed| {
        assert component'[|component|] == pushed[|component|];
      } else {
        var m :| |pushed| <= m < k && Adjacent(edges, component'[m], component'[k]);
      }
    }
  }

  /** Every id of `component` has all its neighbours inside `component`. */
  predicate ComponentClosed(edges: seq<Edge>, component: seq<string>) {
    forall k :: 0 <= k < |component| ==> NeighboursIn(edges, component[k], Elems(component))
  }

  /** `component` is started from node `j`: the first node, in node order,
      that none of the `earlier` components holds. */
  predicate StartsAt(nodes: seq<Node>, earlier: seq<seq<string>>, component: seq<string>, j: int) {
    0 <= j < |nodes| && |component| > 0 && component[0] == nodes[j].id
    && nodes[j].id !in Elems(Flatten(earlier))
    && forall j' :: 0 <= j' < j ==> nodes[j'].id in Elems(Flatten(earlier))
  }

  /** Some node starts `component` after the `earlier` components. */
  predicate Started(nodes: seq<Node>, earlier: seq<seq<string>>, component: seq<string>) {
    exists j :: 0 <= j < |nodes| && StartsAt(nodes, earlier, component, j)
  }

  /** The components come in the order of the nodes that start them. */
  predicate InNodeOrder(nodes: seq<Node>, components: seq<seq<string>>) {
    forall c :: 0 <= c < |components| ==> Started(nodes, components[..c], components[c])
  }

  /** `x` lies in some component. */
  predicate InSome(components: seq<seq<string>>, x: string) {
    exists c :: 0 <= c < |components| && x in components[c]
  }

  /** Every node lies in some component. */
  predicate CoversNodes(nodes: seq<Node>, components: seq<seq<string>>) {
    forall j :: 0 <= j < |nodes| ==> InSome(components, nodes[j].id)
  }

  /** No id lies in two components. */
  predicate Disjoint(components: seq<seq<string>>) {
    forall c1, c2, x ::
      (0 <= c1 < |components| && 0 <= c2 < |components| && x in components[c1] && x in components[c2])
      ==> c1 == c2
  }

  /** The two ends of every edge lie in the same components. */
  predicate EdgesInside(edges: seq<Edge>, components: seq<seq<string>>) {
    forall c, j :: 0 <= c < |components| && 0 <= j < |edges| ==>
      (edges[j].source in components[c] <==> edges[j].target in components[c])
  }

  /** `components` are the connected components of the diagram as far as
      its nodes reach: each is non-empty, repeats no id and is connected
      (every id after the first is joined by an edge to an earlier one), every
      node lies in one of them and no id lies in two, the two ends of any
      edge lie in the same components, and each component is started from
      the first node not in an earlier one. */
  predicate IsComponents(nodes: seq<Node>, edges: seq<Edge>, components: seq<seq<string>>) {
    (forall c :: 0 <= c < |components| ==> |components[c]| > 0 && Distinct(components[c]))
    && (forall c :: 0 <= c < |components| ==> JoinedFrom(edges, components[c], 0))
    && CoversNodes(nodes, components)
    && Disjoint(components)
    && EdgesInside(edges, components)
    && InNodeOrder(nodes, components)
  }

  /** No component is made up: each begins with the id of a node. */
  lemma ComponentHeads(nodes: seq<Node>, edges: seq<Edge>, components: seq<seq<string>>)
    requires IsComponents(nodes, edges, components)
    ensures forall c :: 0 <= c < |components| ==> components[c][0] in NodeIdSet(nodes)
  {
    forall c | 0 <= c < |components|
      ensures components[c][0] in NodeIdSet(nodes)
    {
      assert Started(nodes, components[..c], components[c]);
      var j :| 0 <= j < |nodes| && StartsAt(nodes, components[..c], components[c], j);
    }
  }

  /** Every component found so far is non-empty, closed under edges and
      ordered as a search tree. */
  predicate EachComponent(edges: seq<Edge>, components: seq<seq<string>>) {
    forall c :: 0 <= c < |components| ==>
      |components[c]| > 0 && ComponentClosed(edges, components[c]) && JoinedFrom(edges, components[c], 0)
  }

  lemma EachComponentAppend(edges: seq<Edge>, components: seq<seq<string>>, component: seq<string>)
    requires EachComponent(edges, components)
    requires |component| > 0 && ComponentClosed(edges, component) && JoinedFrom(edges, component, 0)
    ensures EachComponent(edges, components + [component])
  {
    var all := components + [component];
    forall c | 0 <= c < |all|
      ensures |all[c]| > 0 && ComponentClosed(edges, all[c]) && JoinedFrom(edges, all[c], 0)
    {
      if c < |components| {
        assert all[c] == components[c];
      }
    }
  }

  /** The state of `findConnectedComponents` between two nodes: the visited
      ids are exactly those of the components found, no id twice; the
      visited set is closed under edges; and each component is non-empty,
      closed and ordered as a search tree. */
  predicate Searched(edges: seq<Edge>, visited: set<string>, components: seq<seq<string>>, universe: set<string>) {
    visited == Elems(Flatten(components)) && visited <= universe && Endpoints(edges) <= universe
    && Distinct(Flatten(components)) && Closed(edges, visited) && EachComponent(edges, components)
  }

  /** One round of the loop in `findConnectedComponents`: search from
      `nodeId` unless it is visited already, and keep the non-empty
      component found. */
  method VisitNode(edges: seq<Edge>, nodeId: string, visited: set<string>, components: seq<seq<string>>,
                   ghost universe: set<string>)
    returns (visited': set<string>, components': seq<seq<string>>)
    requires Searched(edges, visited, components, universe) && nodeId in universe
    ensures Searched(edges, visited', components', universe)
    ensures visited <= visited' && nodeId in visited'
    ensures components' == components
            || (nodeId !in visited && |components'| == |components| + 1 && components'[..|components|] == components
                && |components'[|components|]| > 0 && components'[|components|][0] == nodeId)
  {
    visited', components' := visited, components;
    if nodeId !in visited {
      var component: seq<string> := [];
      visited', component := Dfs(edges, nodeId, visited, component, universe);
      assert component[0..] == component;
      NewComponent(edges, visited, component);
      if |component| > 0 {
        FlattenAppend(components, component);
        DistinctAppend(Flatten(components), component);
        EachComponentAppend(edges, components, component);
        components' := components + [component];
        assert components'[..|components|] == components;
      }
    }
  }

  /** `findConnectedComponents`: start a search from each node not yet
      visited, in node order, and keep each non-empty component. */
  method FindConnectedComponents(nodes: seq<Node>, edges: seq<Edge>) returns (components: seq<seq<string>>)
    ensures IsComponents(nodes, edges, components)
  {
    var visited: set<string> := {};
    components := [];
    ghost var universe := Endpoints(edges) + NodeIdSet(nodes);
    var i := 0;
    while i < |nodes|
      invariant 0 <= i <= |nodes|
      invariant Searched(edges, visited, components, universe)
      invariant Covers(nodes, i, visited)
      invariant InNodeOrder(nodes, components)
    {
      assert nodes[i].id in NodeIdSet(nodes);
      ghost var before, found := visited, components;
      visited, components := VisitNode(edges, nodes[i].id, visited, components, universe);
      CoversStep(nodes, i, before, visited);
      if components != found {
        OrderStep(nodes, i, found, components);
      }
      i := i + 1;
    }
    ComponentsFound(nodes, edges, visited, components, universe);
  }

  /** The ids of the first `i` nodes are in `s`. */
  predicate Covers(nodes: seq<Node>, i: nat, s: set<string>)
    requires i <= |nodes|
  {
    forall j :: 0 <= j < i ==> nodes[j].id in s
  }

  lemma CoversStep(nodes: seq<Node>, i: nat, s: set<string>, t: set<string>)
    requires i < |nodes| && Covers(nodes, i, s) && s <= t && nodes[i].id in t
    ensures Covers(nodes, i + 1, t)
  {
  }

  /** A component started from node `i`, the first node not yet visited,
      keeps the components in node order. */
  lemma OrderStep(nodes: seq<Node>, i: nat, components: seq<seq<string>>, components': seq<seq<string>>)
    requires i < |nodes| && InNodeOrder(nodes, components)
    requires Covers(nodes, i, Elems(Flatten(components))) && nodes[i].id !in Elems(Flatten(components))
    requires |components'| == |components| + 1 && components'[..|components|] == components
    requires |components'[|components|]| > 0 && components'[|components|][0] == nodes[i].id
    ensures InNodeOrder(nodes, components')
  {
    forall c | 0 <= c < |components'|
      ensures Started(nodes, components'[..c], components'[c])
    {
      if c < |components| {
        assert components'[c] == components'[..|components|][c];
        assert components'[..c] == components[..c];
      } else {
        assert components'[..c] == components;
        assert StartsAt(nodes, components'[..c], components'[c], i);
      }
    }
  }

  /** Once every node is visited, the components found are the connected
      components. */
  lemma ComponentsFound(nodes: seq<Node>, edges: seq<Edge>, visited: set<string>, components: seq<seq<string>>,
                        universe: set<string>)
    requires Searched(edges, visited, components, universe) && Covers(nodes, |nodes|, visited)
    requires InNodeOrder(nodes, components)
    ensures IsComponents(nodes, edges, components)
  {
    NodesCovered(nodes, components);
    ComponentsDisjoint(components);
    EdgesStayInside(edges, components);
    forall c | 0 <= c < |components|
      ensures Distinct(components[c])
    {
      ComponentDistinct(components, c);
    }
  }

  /** Every node visited lies in some component. */
  lemma NodesCovered(nodes: seq<Node>, components: seq<seq<string>>)
    requires Covers(nodes, |nodes|, Elems(Flatten(components)))
    ensures CoversNodes(nodes, components)
  {
    forall j | 0 <= j < |nodes|
      ensures InSome(components, nodes[j].id)
    {
      assert nodes[j].id in Elems(Flatten(components));
      assert nodes[j].id in Flatten(components);
      FlattenMember(components, nodes[j].id);
    }
  }

  /** With no id repeated in the flattened sequence, no id lies in two
      components. */
  lemma ComponentsDisjoint(components: seq<seq<string>>)
    requires Distinct(Flatten(components))
    ensures Disjoint(components)
  {
    forall c1, c2, x | 0 <= c1 < |components| && 0 <= c2 < |components| && x in components[c1] && x in components[c2]
      ensures c1 == c2
    {
      OnlyOneComponent(components, x, c1, c2);
    }
  }

  /** Components closed under edges hold both ends of each edge or neither. */
  lemma EdgesStayInside(edges: seq<Edge>, components: seq<seq<string>>)
    requires EachComponent(edges, components)
    ensures EdgesInside(edges, components)
  {
    forall c, j | 0 <= c < |components| && 0 <= j < |edges|
      ensures edges[j].source in components[c] <==> edges[j].target in components[c]
    {
      assert ComponentClosed(edges, components[c]);
      if edges[j].source in components[c] {
        var k :| 0 <= k < |components[c]| && components[c][k] == edges[j].source;
        assert NeighboursIn(edges, components[c][k], Elems(components[c]));
      }
      if edges[j].target in components[c] {
        var k :| 0 <= k < |components[c]| && components[c][k] == edges[j].target;
        assert NeighboursIn(edges, components[c][k], Elems(components[c]));
      }
    }
  }

  /** A search started outside a closed set of visited ids finds a component
      that is closed by itself, and the visited set stays closed. */
  lemma NewComponent(edges: seq<Edge>, visited: set<string>, component: seq<string>)
    requires Closed(edges, visited)
    requires forall k :: 0 <= k < |component| ==> component[k] !in visited
    requires forall k :: 0 <= k < |component| ==> NeighboursIn(edges, component[k], visited + Elems(component))
    ensures ComponentClosed(edges, component)
    ensures Closed(edges, visited + Elems(component))
  {
    forall x | x in visited + Elems(component)
      ensures NeighboursIn(edges, x, visited + Elems(component))
    {
      if x in visited {
        NeighboursInGrows(edges, x, visited, visited + Elems(component));
      }
    }
  }

  lemma FlattenAppend(components: seq<seq<string>>, component: seq<string>)
    ensures Flatten(components + [component]) == Flatten(components) + component
  {
    assert (components + [component])[..|components|] == components;
  }

  lemma DistinctAppend(s: seq<string>, t: seq<string>)
    requires Distinct(s) && Distinct(t)
    requires forall k :: 0 <= k < |t| ==> t[k] !in Elems(s)
    ensures Distinct(s + t)
  {
    forall i, j | 0 <= i < j < |s + t|
      ensures (s + t)[i] != (s + t)[j]
    {
      if i < |s| && j >= |s| {
        assert (s + t)[j] == t[j - |s|];
      }
    }
  }

  /** The flattened components of a prefix are a prefix of the flattened
      components. */
  lemma {:induction false} FlattenPrefix(components: seq<seq<string>>, c: nat)
    requires c <= |components|
    ensures |Flatten(components[..c])| <= |Flatten(components)|
    ensures Flatten(components)[..|Flatten(components[..c])|] == Flatten(components[..c])
    decreases |components|
  {
    if c < |components| {
      var init := components[..|components| - 1];
      assert init[..c] == components[..c];
      FlattenPrefix(init, c);
    } else {
      assert components[..c] == components;
    }
  }

  /** Where the `k`-th id of component `c` sits in the flattened sequence. */
  lemma FlattenAt(components: seq<seq<string>>, c: nat, k: nat)
    requires c < |components| && k < |components[c]|
    ensures |Flatten(components[..c])| + |components[c]| == |Flatten(components[..c + 1])|
    ensures |Flatten(components[..c + 1])| <= |Flatten(components)|
    ensures Flatten(components)[|Flatten(components[..c])| + k] == components[c][k]
  {
    var upTo := components[..c + 1];
    assert upTo[..c] == components[..c];
    assert Flatten(upTo) == Flatten(components[..c]) + components[c];
    FlattenPrefix(components, c + 1);
    assert Flatten(components)[|Flatten(components[..c])| + k] == Flatten(upTo)[|Flatten(components[..c])| + k];
  }

  /** The flattened prefix grows with the prefix. */
  lemma FlattenGrows(components: seq<seq<string>>, a: nat, b: nat)
    requires a <= b <= |components|
    ensures |Flatten(components[..a])| <= |Flatten(components[..b])|
  {
    var upTo := components[..b];
    assert upTo[..a] == components[..a];
    FlattenPrefix(upTo, a);
  }

  /** An id lies in some component exactly when it lies in the flattened
      sequence. */
  lemma {:induction false} FlattenMember(components: seq<seq<string>>, x: string)
    requires x in Flatten(components)
    ensures exists c :: 0 <= c < |components| && x in components[c]
    decreases |components|
  {
    var init := components[..|components| - 1];
    if x !in components[|components| - 1] {
      assert x in Flatten(init);
      FlattenMember(init, x);
      var c :| 0 <= c < |init| && x in init[c];
      assert components[c] == init[c];
    }
  }

  /** With no id repeated in the flattened sequence, ids of two different
      components differ. */
  lemma ComponentsApart(components: seq<seq<string>>, lo: nat, k1: nat, hi: nat, k2: nat)
    requires Distinct(Flatten(components))
    requires lo < hi < |components| && k1 < |components[lo]| && k2 < |components[hi]|
    ensures components[lo][k1] != components[hi][k2]
  {
    FlattenAt(components, lo, k1);
    FlattenAt(components, hi, k2);
    FlattenGrows(components, lo + 1, hi);
    var p1 := |Flatten(components[..lo])| + k1;
    var p2 := |Flatten(components[..hi])| + k2;
    assert p1 < p2 < |Flatten(components)|;
  }

  /** Hence no id lies in two components. */
  lemma OnlyOneComponent(components: seq<seq<string>>, x: string, c1: nat, c2: nat)
    requires Distinct(Flatten(components))
    requires c1 < |components| && c2 < |components|
    requires x in components[c1] && x in components[c2]
    ensures c1 == c2
  {
    if c1 != c2 {
      var lo, hi := if c1 < c2 then c1 else c2, if c1 < c2 then c2 else c1;
      var k1 :| 0 <= k1 < |components[lo]| && components[lo][k1] == x;
      var k2 :| 0 <= k2 < |components[hi]| && components[hi][k2] == x;
      ComponentsApart(components, lo, k1, hi, k2);
      assert false;
    }
  }

  /** With no id repeated in the flattened sequence, no component repeats an id. */
  lemma ComponentDistinct(components: seq<seq<string>>, c: nat)
    requires Distinct(Flatten(components)) && c < |components|
    ensures Distinct(components[c])
  {
    forall i, j | 0 <= i < j < |components[c]|
      ensures components[c][i] != components[c][j]
    {
      FlattenAt(components, c, i);
      FlattenAt(components, c, j);
    }
  }
}
