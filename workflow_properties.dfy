/** What the workflow store's operations promise, stated over the pure
    definitions of module Workflow: fresh node ids, the undo/redo round trips
    of each history entry, and the shape of the bounded history log. */
module WorkflowProperties {
  import opened Common
  import opened Text
  import opened Workflow

  // ---------------------------------------------------------------------------
  // Fresh ids
  // ---------------------------------------------------------------------------

  /** Removing nodes keeps ids distinct and below the counter. */
  lemma FilterKeepsFresh(nodes: seq<Node>, p: Node -> bool, counter: nat)
    requires FreshCounter(nodes, counter)
    ensures FreshCounter(Filter(nodes, p), counter)
  {
    FilterKeepsUnique(nodes, p);
    FilterKeepsBelow(nodes, p, counter);
  }

  /** Removing nodes keeps the remaining ids distinct. */
  lemma {:induction false} FilterKeepsUnique(nodes: seq<Node>, p: Node -> bool)
    requires UniqueIds(nodes)
    ensures UniqueIds(Filter(nodes, p))
    decreases |nodes|
  {
    if nodes != [] {
      var tail := nodes[1..];
      assert UniqueIds(tail) by {
        forall i, j | 0 <= i < j < |tail|
          ensures tail[i].id != tail[j].id
        {
          assert tail[i] == nodes[i + 1] && tail[j] == nodes[j + 1];
        }
      }
      FilterKeepsUnique(tail, p);
      var rest := Filter(tail, p);
      if p(nodes[0]) {
        forall k | 0 <= k < |rest|
          ensures rest[k].id != nodes[0].id
        {
          assert rest[k] in tail;
          var j :| 0 <= j < |tail| && tail[j] == rest[k];
          assert nodes[j + 1] == rest[k];
        }
        PrependKeepsUnique(nodes[0], rest);
        assert Filter(nodes, p) == [nodes[0]] + rest;
      } else {
        assert Filter(nodes, p) == rest;
      }
    }
  }

  /** A node whose id none of `rest` has can go in front of it. */
  lemma PrependKeepsUnique(n: Node, rest: seq<Node>)
    requires UniqueIds(rest)
    requires forall k :: 0 <= k < |rest| ==> rest[k].id != n.id
    ensures UniqueIds([n] + rest)
  {
    var r := [n] + rest;
    forall i, j | 0 <= i < j < |r|
      ensures r[i].id != r[j].id
    {
      assert r[j] == rest[j - 1];
      if i > 0 {
        assert r[i] == rest[i - 1];
      }
    }
  }

  /** Removing nodes keeps every remaining suffix below the counter. */
  lemma FilterKeepsBelow(nodes: seq<Node>, p: Node -> bool, counter: nat)
    requires IdsBelow(nodes, counter)
    ensures IdsBelow(Filter(nodes, p), counter)
  {
    var r := Filter(nodes, p);
    forall k | 0 <= k < |r|
      ensures SuffixNumber(r[k].id) < counter
    {
      assert r[k] in nodes;
      var j :| 0 <= j < |nodes| && nodes[j] == r[k];
    }
  }

  /** `addNode` keeps node ids distinct, and the counter above every suffix. */
  lemma AddNodeKeepsFresh(nodes: seq<Node>, shape: string, position: Position, counter: nat)
    requires FreshCounter(nodes, counter)
    ensures FreshCounter(nodes + [NewNode(shape, position, counter)], counter + 1)
  {
    AppendKeepsFresh(nodes, NewNode(shape, position, counter), counter);
  }

  /** Appending a node whose suffix is the counter, and bumping the counter,
      keeps ids distinct and fresh. */
  lemma AppendKeepsFresh(nodes: seq<Node>, n: Node, counter: nat)
    requires FreshCounter(nodes, counter) && SuffixNumber(n.id) == counter
    ensures FreshCounter(nodes + [n], counter + 1)
  {
    forall i | 0 <= i < |nodes|
      ensures nodes[i].id != n.id
    {
      assert SuffixNumber(nodes[i].id) < SuffixNumber(n.id);
    }
  }

  /** `deleteNode` keeps ids fresh. */
  lemma DeleteNodeKeepsFresh(nodes: seq<Node>, id: string, counter: nat)
    requires FreshCounter(nodes, counter)
    ensures FreshCounter(WithoutNode(nodes, id), counter)
  {
    FilterKeepsFresh(nodes, (n: Node) => n.id != id, counter);
  }

  /** A data update changes no id, so the ids stay distinct and below the
      counter. */
  lemma UpdateKeepsFresh(nodes: seq<Node>, id: string, d: Data, counter: nat)
    ensures FreshCounter(UpdateNodes(nodes, id, d), counter) <==> FreshCounter(nodes, counter)
  {
    var r := UpdateNodes(nodes, id, d);
    assert forall i :: 0 <= i < |r| ==> r[i].id == nodes[i].id;
  }

  /** Successive `addNode` calls with no clear or load in between never repeat
      an id: the ids made from two different counter values differ, whatever
      the shapes. */
  lemma NodeIdsDistinct(shape1: string, counter1: nat, shape2: string, counter2: nat)
    requires counter1 != counter2
    ensures NodeId(shape1, counter1) != NodeId(shape2, counter2)
  {
    NodeIdSuffix(shape1, counter1);
    NodeIdSuffix(shape2, counter2);
  }

  /** Pasted or duplicated clones get ids that are distinct from each other and
      from every existing node, and the counter moves past them. */
  lemma ClonesKeepFresh(nodes: seq<Node>, source: seq<Node>, counter: nat)
    requires FreshCounter(nodes, counter)
    ensures FreshCounter(nodes + Clones(source, counter), counter + |source|)
  {
    var clones := Clones(source, counter);
    var all := nodes + clones;
    forall i | 0 <= i < |clones|
      ensures SuffixNumber(clones[i].id) == counter + i
    {
      NodeIdSuffix(source[i].shape, counter + i);
    }
    forall i, j | 0 <= i < j < |all|
      ensures all[i].id != all[j].id
    {
      if j >= |nodes| {
        assert SuffixNumber(all[j].id) == counter + (j - |nodes|);
        if i >= |nodes| {
          assert SuffixNumber(all[i].id) == counter + (i - |nodes|);
        } else {
          assert SuffixNumber(all[i].id) < counter;
        }
      }
    }
  }

  /** Loading makes the counter continue past every loaded id, so the next
      `addNode` cannot collide with a loaded node. */
  lemma LoadThenAddIsFresh(loaded: seq<Node>, shape: string, position: Position)
    ensures forall i :: 0 <= i < |loaded| ==> loaded[i].id != NewNode(shape, position, LoadedCounter(loaded)).id
  {
  }

  /** Loading a single node `rectangle-7` makes the next rectangle's id
      (`NewNode` builds it with `NodeId`) `rectangle-8`. */
  lemma LoadRectangleSevenThenAdd(loaded: Node)
    requires loaded.id == "rectangle-7"
    ensures LoadedCounter([loaded]) == 8
    ensures NodeId("rectangle", LoadedCounter([loaded])) == "rectangle-8"
  {
    RectangleSevenSuffix();
    LoadedCounterOfOne(loaded);
    RectangleEightId();
  }

  lemma RectangleSevenSuffix()
    ensures SuffixNumber("rectangle-7") == 7
  {
    assert "rectangle-7" == NodeId("rectangle", 7);
    NodeIdSuffix("rectangle", 7);
  }

  lemma RectangleEightId()
    ensures NodeId("rectangle", 8) == "rectangle-8"
  {
    assert NatToString(8) == "8";
  }

  /** Loading one node continues right after its suffix. */
  lemma LoadedCounterOfOne(n: Node)
    ensures LoadedCounter([n]) == SuffixNumber(n.id) + 1
  {
    assert [n][1..] == [];
  }



  // ---------------------------------------------------------------------------
  // Merging data
  // ---------------------------------------------------------------------------

  /** Two successive updates merge: setting the label and then the width leaves
      the label in place, and the width reaches both the data and the style. */
  lemma LabelSurvivesWidthUpdate(n: Node, caption: string)
    ensures var afterLabel := UpdatedNode(n, map["label" := Str(caption)]);
            var afterWidth := UpdatedNode(afterLabel, map["width" := Num(200)]);
            afterWidth.data["label"] == Str(caption) && afterWidth.data["width"] == Num(200)
            && afterWidth.styleWidth == Some(Num(200)) && afterWidth.styleHeight == n.styleHeight
  {
  }

  /** A zero width is falsy: it is merged into the data but the style keeps
      its old width. */
  lemma ZeroWidthKeepsStyle(n: Node)
    ensures var r := UpdatedNode(n, map["width" := Num(0)]);
            r.data["width"] == Num(0) && r.styleWidth == n.styleWidth
  {
  }

  // ---------------------------------------------------------------------------
  // Undo and redo, entry by entry
  // ---------------------------------------------------------------------------

  /** Undo of `addNode` gives back the graph before it, when the new id was
      fresh; redo then replays the add. */
  lemma UndoRedoAddNode(g: Graph, n: Node)
    requires forall i :: 0 <= i < |g.nodes| ==> g.nodes[i].id != n.id
    ensures Undone(Graph(g.nodes + [n], g.edges), NodeAdded(n)) == g
    ensures Redone(Undone(Graph(g.nodes + [n], g.edges), NodeAdded(n)), NodeAdded(n)) == Graph(g.nodes + [n], g.edges)
  {
    var p := (m: Node) => m.id != n.id;
    FilterAppend(g.nodes, [n], p);
    FilterKeepsAll(g.nodes, p);
  }

  /** Undo of `onConnect` removes the new edge again when its id was fresh; redo
      puts it back. */
  lemma UndoRedoConnect(g: Graph, e: Edge)
    requires forall i :: 0 <= i < |g.edges| ==> g.edges[i].id != e.id
    ensures Undone(Graph(g.nodes, g.edges + [e]), EdgeAdded(e)) == g
    ensures Redone(Undone(Graph(g.nodes, g.edges + [e]), EdgeAdded(e)), EdgeAdded(e)) == Graph(g.nodes, g.edges + [e])
  {
    var p := (x: Edge) => x.id != e.id;
    FilterAppend(g.edges, [e], p);
    FilterKeepsAll(g.edges, p);
  }

  /** Filtering on a unique id keeps exactly the one element that has it. */
  lemma {:induction false} FilterUniqueId(nodes: seq<Node>, id: string, k: nat)
    requires UniqueIds(nodes) && k < |nodes| && nodes[k].id == id
    ensures Filter(nodes, (n: Node) => n.id == id) == [nodes[k]]
    decreases |nodes|
  {
    if k == 0 {
      var p := (n: Node) => n.id == id;
      assert forall i :: 0 <= i < |nodes[1..]| ==> nodes[1..][i].id != id by {
        forall i | 0 <= i < |nodes[1..]| ensures nodes[1..][i].id != id {
          assert nodes[1..][i] == nodes[i + 1];
        }
      }
      assert forall i :: 0 <= i < |nodes[1..]| ==> !p(nodes[1..][i]);
      FilterDropsAll(nodes[1..], p);
    } else {
      FilterUniqueId(nodes[1..], id, k - 1);
    }
  }

  /** Removing a unique id from a node list and appending the node found under
      it gives the same multiset of nodes; an absent id changes nothing. */
  lemma RestoreFoundNode(nodes: seq<Node>, id: string)
    requires UniqueIds(nodes)
    ensures var found := FindNode(nodes, id);
            multiset(WithoutNode(nodes, id) + (if found.Some? then [found.value] else [])) == multiset(nodes)
  {
    var keep := (n: Node) => n.id != id;
    var drop := (n: Node) => n.id == id;
    FilterPartition(nodes, keep, drop);
    var found := FindNode(nodes, id);
    if found.Some? {
      var k :| 0 <= k < |nodes| && nodes[k] == found.value;
      FilterUniqueId(nodes, id, k);
    } else {
      FilterDropsAll(nodes, drop);
    }
  }

  /** Undo of `deleteNode` restores the deleted node and every cascaded edge,
      but at the end of the arrays: the graph comes back up to order. An absent
      id restores no node. */
  lemma UndoDeleteNode(g: Graph, id: string)
    requires UniqueIds(g.nodes)
    ensures var after := Graph(WithoutNode(g.nodes, id), EdgesAvoiding(g.edges, id));
            var undone := Undone(after, NodeDeleted(FindNode(g.nodes, id), EdgesTouching(g.edges, id)));
            multiset(undone.nodes) == multiset(g.nodes) && multiset(undone.edges) == multiset(g.edges)
  {
    RestoreFoundNode(g.nodes, id);
    FilterPartition(g.edges, (e: Edge) => !Touches(e, id), (e: Edge) => Touches(e, id));
  }

  /** Redo of a node deletion removes the node that undo appended. */
  lemma RedoRemovesRestoredNode(nodes: seq<Node>, id: string)
    ensures var kept := WithoutNode(nodes, id);
            var found := FindNode(nodes, id);
            var restored := kept + (if found.Some? then [found.value] else []);
            (if found.Some? then WithoutNode(restored, found.value.id) else restored) == kept
  {
    var kept := WithoutNode(nodes, id);
    var found := FindNode(nodes, id);
    if found.Some? {
      var keep := (n: Node) => n.id != id;
      FilterAppend(kept, [found.value], keep);
      FilterKeepsAll(kept, keep);
    }
  }

  /** With distinct edge ids, redo of a node deletion removes exactly the edges
      that undo appended. */
  lemma RedoRemovesRestoredEdges(edges: seq<Edge>, id: string)
    requires UniqueEdgeIds(edges)
    ensures WithoutEdgesOf(EdgesAvoiding(edges, id) + EdgesTouching(edges, id), EdgesTouching(edges, id))
            == EdgesAvoiding(edges, id)
  {
    var avoiding := EdgesAvoiding(edges, id);
    var touching := EdgesTouching(edges, id);
    var notRemoved := (e: Edge) => !HasEdgeId(touching, e.id);
    FilterAppend(avoiding, touching, notRemoved);
    assert forall i :: 0 <= i < |avoiding| ==> notRemoved(avoiding[i]);
    FilterKeepsAll(avoiding, notRemoved);
    forall i | 0 <= i < |touching|
      ensures !notRemoved(touching[i])
    {
      assert HasEdgeId(touching, touching[i].id);
    }
    FilterDropsAll(touching, notRemoved);
  }

  /** With distinct edge ids, redo after undo of `deleteNode` gives back exactly
      the graph the deletion left. */
  lemma RedoUndoDeleteNode(g: Graph, id: string)
    requires UniqueEdgeIds(g.edges)
    ensures var after := Graph(WithoutNode(g.nodes, id), EdgesAvoiding(g.edges, id));
            var p := NodeDeleted(FindNode(g.nodes, id), EdgesTouching(g.edges, id));
            Redone(Undone(after, p), p) == after
  {
    RedoRemovesRestoredNode(g.nodes, id);
    RedoRemovesRestoredEdges(g.edges, id);
  }

  /** The edge list undo of `deleteEdge` rebuilds: the kept edges, then the
      edge that was found, if any. */
  function RestoredEdges(edges: seq<Edge>, id: string): seq<Edge> {
    var found := FindEdge(edges, id);
    WithoutEdge(edges, id) + (if found.Some? then [found.value] else [])
  }

  /** Removing a unique edge id and appending the edge found under it gives
      the same multiset of edges. */
  lemma RestoreFoundEdge(edges: seq<Edge>, id: string)
    requires UniqueEdgeIds(edges)
    ensures multiset(RestoredEdges(edges, id)) == multiset(edges)
  {
    var keep := (e: Edge) => e.id != id;
    var drop := (e: Edge) => e.id == id;
    FilterPartition(edges, keep, drop);
    var found := FindEdge(edges, id);
    if found.Some? {
      var k :| 0 <= k < |edges| && edges[k] == found.value;
      FilterUniqueEdgeId(edges, id, k);
    } else {
      FilterDropsAll(edges, drop);
    }
  }

  /** Redo of `deleteEdge` removes the edge that undo appended. */
  lemma RedoRemovesRestoredEdge(edges: seq<Edge>, id: string)
    ensures var found := FindEdge(edges, id);
            (if found.Some? then WithoutEdge(RestoredEdges(edges, id), found.value.id) else RestoredEdges(edges, id))
            == WithoutEdge(edges, id)
  {
    var keep := (e: Edge) => e.id != id;
    var kept := WithoutEdge(edges, id);
    var found := FindEdge(edges, id);
    if found.Some? {
      FilterAppend(kept, [found.value], keep);
      FilterKeepsAll(kept, keep);
    }
  }

  /** Undo of `deleteEdge` restores the edge (at the end) when ids are
      distinct; redo removes it again. */
  lemma UndoRedoDeleteEdge(g: Graph, id: string)
    requires UniqueEdgeIds(g.edges)
    ensures var after := Graph(g.nodes, WithoutEdge(g.edges, id));
            var p := EdgeDeleted(FindEdge(g.edges, id));
            multiset(Undone(after, p).edges) == multiset(g.edges) && Undone(after, p).nodes == g.nodes
            && Redone(Undone(after, p), p) == after
  {
    var after := Graph(g.nodes, WithoutEdge(g.edges, id));
    var p := EdgeDeleted(FindEdge(g.edges, id));
    var restored := RestoredEdges(g.edges, id);
    assert Undone(after, p) == Graph(g.nodes, restored);
    assert multiset(restored) == multiset(g.edges) by {
      RestoreFoundEdge(g.edges, id);
    }
    assert Redone(Graph(g.nodes, restored), p) == after by {
      RedoRemovesRestoredEdge(g.edges, id);
    }
  }

  /** Filtering edges on a unique id keeps exactly the one edge that has it. */
  lemma {:induction false} FilterUniqueEdgeId(edges: seq<Edge>, id: string, k: nat)
    requires UniqueEdgeIds(edges) && k < |edges| && edges[k].id == id
    ensures Filter(edges, (e: Edge) => e.id == id) == [edges[k]]
    decreases |edges|
  {
    if k == 0 {
      var p := (e: Edge) => e.id == id;
      forall i | 0 <= i < |edges[1..]| ensures !p(edges[1..][i]) {
        assert edges[1..][i] == edges[i + 1];
      }
      FilterDropsAll(edges[1..], p);
    } else {
      FilterUniqueEdgeId(edges[1..], id, k - 1);
    }
  }

  /** Undo of `clearWorkflow` gives back the exact arrays it cleared; redo
      clears again. */
  lemma UndoRedoClear(g: Graph)
    ensures Undone(Graph([], []), WorkflowCleared(g)) == g
    ensures Redone(g, WorkflowCleared(g)) == Graph([], [])
  {
  }

  /** Undo of `loadWorkflow` gives back the replaced arrays; redo the loaded ones. */
  lemma UndoRedoLoad(g: Graph, loaded: Graph)
    ensures Undone(loaded, WorkflowLoaded(g, loaded)) == g
    ensures Redone(g, WorkflowLoaded(g, loaded)) == loaded
  {
  }

  /** An update entry has no case in either switch: undo and redo leave the
      graph alone, so an update cannot be undone. */
  lemma UndoRedoUpdateKeepGraph(g: Graph, previous: Option<Node>, d: Data)
    ensures Undone(g, NodeUpdated(previous, d)) == g && Redone(g, NodeUpdated(previous, d)) == g
  {
  }

  // ---------------------------------------------------------------------------
  // The history log
  // ---------------------------------------------------------------------------

  /** Undo and then redo puts the cursor back where it was. */
  lemma UndoThenRedoLog(l: Log)
    requires l.Valid() && l.CanUndo()
    ensures l.Undone().Redone() == l
  {
  }

  /** Recording after an undo discards the undone entry: the log is the part
      before the cursor plus the new action, and redo has nothing to do. */
  lemma RecordAfterUndoDropsRedoTail(l: Log, a: WorkflowAction)
    requires l.Valid() && l.CanUndo()
    ensures var r := l.Undone().Recorded(a);
            r.entries == l.entries[..l.index] + [a] && !r.CanRedo() && r.Redone() == r
  {
  }

  /** A full log at its tail evicts its oldest entry when a new one comes. */
  lemma FullLogEvictsOldest(l: Log, a: WorkflowAction)
    requires l.Valid() && |l.entries| == HistoryLimit && !l.CanRedo()
    ensures l.Recorded(a).entries == l.entries[1..] + [a]
    ensures l.Recorded(a).index == HistoryLimit - 1
  {
  }

  /** `slice(-50)` of a `slice(-50)` with one more element appended is the
      `slice(-50)` of the whole. */
  lemma LastAtMostAppend<T>(s: seq<T>, x: T, n: nat)
    requires n > 0
    ensures LastAtMost(LastAtMost(s, n) + [x], n) == LastAtMost(s + [x], n)
  {
  }

  /** Recording a run of actions from the tail of the log keeps the last 50 of
      all entries and leaves the cursor on the newest. */
  lemma {:induction false} RecordAllFromTail(l: Log, actions: seq<WorkflowAction>)
    requires l.Valid() && !l.CanRedo()
    ensures RecordAll(l, actions)
            == Log(LastAtMost(l.entries + actions, HistoryLimit), Min(|l.entries| + |actions|, HistoryLimit) - 1)
    decreases |actions|
  {
    if actions == [] {
      assert l.entries + actions == l.entries;
      assert LastAtMost(l.entries, HistoryLimit) == l.entries;
    } else {
      var a, rest := actions[0], actions[1..];
      var next := l.Recorded(a);
      calc {
        RecordAll(l, actions);
        RecordAll(next, rest);
        { RecordedAtTail(l, a); RecordAllFromTail(next, rest); }
        Log(LastAtMost(next.entries + rest, HistoryLimit), Min(|next.entries| + |rest|, HistoryLimit) - 1);
        { CombineTail(l, a, rest); assert [a] + rest == actions; }
        Log(LastAtMost(l.entries + actions, HistoryLimit), Min(|l.entries| + |actions|, HistoryLimit) - 1);
      }
    }
  }

  /** Recording one action and then trimming with the rest appended is one
      trim of everything. */
  lemma CombineTail(l: Log, a: WorkflowAction, rest: seq<WorkflowAction>)
    requires l.Valid() && !l.CanRedo()
    ensures LastAtMost(l.Recorded(a).entries + rest, HistoryLimit) == LastAtMost(l.entries + ([a] + rest), HistoryLimit)
    ensures Min(|l.Recorded(a).entries| + |rest|, HistoryLimit) == Min(|l.entries| + |[a] + rest|, HistoryLimit)
  {
    RecordedAtTail(l, a);
    var appended := l.entries + [a];
    assert l.Recorded(a).entries == LastAtMost(appended, HistoryLimit);
    LastAtMostOfLastAtMost(appended, rest, HistoryLimit);
    assert appended + rest == l.entries + ([a] + rest);
  }

  /** Recording at the tail of a log appends and keeps the last fifty. */
  lemma RecordedAtTail(l: Log, a: WorkflowAction)
    requires l.Valid() && !l.CanRedo()
    ensures l.Recorded(a) == Log(LastAtMost(l.entries + [a], HistoryLimit), Min(|l.entries| + 1, HistoryLimit) - 1)
    ensures !l.Recorded(a).CanRedo()
  {
    assert l.entries[..l.index + 1] == l.entries;
  }

  /** Taking the last `n` early or late makes no difference. */
  lemma LastAtMostOfLastAtMost<T>(s: seq<T>, t: seq<T>, n: nat)
    ensures LastAtMost(LastAtMost(s, n) + t, n) == LastAtMost(s + t, n)
  {
    if |s| <= n {
      assert LastAtMost(s, n) == s;
    } else {
      var k := |s| - n;
      assert LastAtMost(s, n) == s[k..];
      assert s[k..] + t == (s + t)[k..];
      LastAtMostOfSuffix(s + t, k, n);
    }
  }

  /** Dropping a prefix that leaves at least `n` elements keeps the last `n`. */
  lemma LastAtMostOfSuffix<T>(w: seq<T>, k: nat, n: nat)
    requires k + n <= |w|
    ensures LastAtMost(w[k..], n) == LastAtMost(w, n)
  {
    assert w[k..][|w| - k - n..] == w[|w| - n..];
  }

  /** Recording from an empty log keeps the last fifty actions, cursor on the newest. */
  lemma RecordAllFromEmpty(l: Log, actions: seq<WorkflowAction>)
    requires l.entries == [] && l.index == -1
    ensures RecordAll(l, actions) == Log(LastAtMost(actions, HistoryLimit), Min(|actions|, HistoryLimit) - 1)
  {
    calc {
      RecordAll(l, actions);
      { RecordAllFromTail(l, actions); }
      Log(LastAtMost(l.entries + actions, HistoryLimit), Min(|l.entries| + |actions|, HistoryLimit) - 1);
      { assert l.entries + actions == actions; }
      Log(LastAtMost(actions, HistoryLimit), Min(|actions|, HistoryLimit) - 1);
    }
  }

  /** From an empty log, any run of at least fifty recorded mutations leaves
      exactly fifty undo steps, over the newest fifty actions: with sixty, the
      oldest ten are gone. */
  lemma ManyMutationsKeepFifty(l: Log, actions: seq<WorkflowAction>)
    requires l.entries == [] && l.index == -1
    requires |actions| >= HistoryLimit
    ensures RecordAll(l, actions).entries == actions[|actions| - HistoryLimit..]
    ensures RecordAll(l, actions).index == HistoryLimit - 1
  {
    var m := Min(|actions|, HistoryLimit);
    assert m == HistoryLimit;
    var tail := LastAtMost(actions, HistoryLimit);
    assert tail == actions[|actions| - HistoryLimit..];
    RecordAllFromEmpty(l, actions);
  }

  // ---------------------------------------------------------------------------
  // Undo of a deletion that found nothing (see README, Findings)
  // ---------------------------------------------------------------------------

  /** A JavaScript array that may hold `undefined`. */
  function Slots<T>(s: seq<T>): (r: seq<Option<T>>)
    ensures |r| == |s| && forall i :: 0 <= i < |s| ==> r[i] == Some(s[i])
  {
    seq(|s|, i requires 0 <= i < |s| => Some(s[i]))
  }

  /** Undo of a deletion entry as written: `[...array, payload]`, whatever the
      payload is. */
  function AppendPayloadAsWritten<T>(slots: seq<Option<T>>, payload: Option<T>): (r: seq<Option<T>>)
    ensures |r| == |slots| + 1 && r[..|slots|] == slots && r[|slots|] == payload
  {
    slots + [payload]
  }

  /** As written, `deleteNode` of an absent id followed by `undo` leaves an
      `undefined` entry in the nodes array. */
  lemma UndoDeleteAbsentNodeAsWritten(g: Graph, id: string)
    requires forall i :: 0 <= i < |g.nodes| ==> g.nodes[i].id != id
    ensures var slots := AppendPayloadAsWritten(Slots(WithoutNode(g.nodes, id)), FindNode(g.nodes, id));
            |slots| == |g.nodes| + 1 && slots[|g.nodes|] == None
  {
    FilterKeepsAll(g.nodes, (n: Node) => n.id != id);
  }

  /** As written, `deleteEdge` of an absent id followed by `undo` leaves an
      `undefined` entry in the edges array. */
  lemma UndoDeleteAbsentEdgeAsWritten(g: Graph, id: string)
    requires forall i :: 0 <= i < |g.edges| ==> g.edges[i].id != id
    ensures var slots := AppendPayloadAsWritten(Slots(WithoutEdge(g.edges, id)), FindEdge(g.edges, id));
            |slots| == |g.edges| + 1 && slots[|g.edges|] == None
  {
    FilterKeepsAll(g.edges, (e: Edge) => e.id != id);
  }

  /** In the corrected model, deleting a node id that no node has and then
      undoing and redoing leaves the nodes as they were. */
  lemma UndoDeleteAbsentNodeIsHarmless(g: Graph, nodeId: string)
    requires forall i :: 0 <= i < |g.nodes| ==> g.nodes[i].id != nodeId
    ensures var afterNode := Graph(WithoutNode(g.nodes, nodeId), EdgesAvoiding(g.edges, nodeId));
            var pn := NodeDeleted(FindNode(g.nodes, nodeId), EdgesTouching(g.edges, nodeId));
            Undone(afterNode, pn).nodes == g.nodes && Redone(Undone(afterNode, pn), pn).nodes == g.nodes
  {
    FilterKeepsAll(g.nodes, (n: Node) => n.id != nodeId);
    assert WithoutNode(g.nodes, nodeId) == g.nodes;
    assert FindNode(g.nodes, nodeId) == None;
  }

  /** In the corrected model, deleting an edge id that no edge has and then
      undoing and redoing leaves the diagram as it was. */
  lemma UndoDeleteAbsentEdgeIsHarmless(g: Graph, edgeId: string)
    requires forall i :: 0 <= i < |g.edges| ==> g.edges[i].id != edgeId
    ensures var afterEdge := Graph(g.nodes, WithoutEdge(g.edges, edgeId));
            var pe := EdgeDeleted(FindEdge(g.edges, edgeId));
            Undone(afterEdge, pe) == g && Redone(Undone(afterEdge, pe), pe) == g
  {
    FilterKeepsAll(g.edges, (e: Edge) => e.id != edgeId);
    assert WithoutEdge(g.edges, edgeId) == g.edges;
    assert FindEdge(g.edges, edgeId) == None;
  }

}
