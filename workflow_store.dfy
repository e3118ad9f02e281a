/** The workflow store (`WorkflowProvider` in src/contexts/WorkflowContext.tsx):
    the nodes and edges of the diagram, the selection, the id counter, the
    clipboard and the undo log, updated in place by the store's operations.
    Each operation is specified by the pure definitions of module Workflow;
    what those definitions promise is proved in module WorkflowProperties.
    The clock (`Date.now()`) is the parameter `now`. */
module WorkflowStore {
  import opened Common
  import opened Text
  import opened Workflow
  import opened WorkflowProperties

  class Store {
    var nodes: seq<Node>
    var edges: seq<Edge>
    var selectedNodeId: Option<string>
    var nodeCounter: nat
    var copiedNodes: seq<Node>
    var history: seq<WorkflowAction>
    var historyIndex: int

    /** The undo log is well formed: at most 50 entries, the cursor on one of
        them or at -1. */
    predicate Valid()
      reads this
    {
      History().Valid()
    }

    function History(): Log
      reads this
    {
      Log(history, historyIndex)
    }

    function Snapshot(): Graph
      reads this
    {
      Graph(nodes, edges)
    }

    predicate CanUndo()
      reads this
    {
      History().CanUndo()
    }

    predicate CanRedo()
      reads this
    {
      History().CanRedo()
    }

    /** The initial state: an empty diagram, counter 1, empty log. */
    constructor ()
      ensures nodes == [] && edges == [] && selectedNodeId == None
      ensures nodeCounter == 1 && copiedNodes == []
      ensures history == [] && historyIndex == -1
      ensures Valid() && !CanUndo() && !CanRedo()
      ensures FreshCounter(nodes, nodeCounter)
    {
      nodes := [];
      edges := [];
      selectedNodeId := None;
      nodeCounter := 1;
      copiedNodes := [];
      history := [];
      historyIndex := -1;
    }

    /** `selectedNodes`: the nodes whose `selected` flag is set, in order. */
    function SelectedNodes(): (r: seq<Node>)
      reads this
      ensures |r| <= |nodes|
      ensures forall i :: 0 <= i < |r| ==> r[i].selected && r[i] in nodes
      ensures forall i :: 0 <= i < |nodes| && nodes[i].selected ==> nodes[i] in r
    {
      Filter(nodes, (n: Node) => n.selected)
    }

    method SetSelectedNodeId(id: Option<string>)
      modifies this`selectedNodeId
      ensures selectedNodeId == id
    {
      selectedNodeId := id;
    }

    /** `addToHistory`: cut the redo tail, append, keep the newest 50. */
    method AddToHistory(action: WorkflowAction)
      requires Valid()
      modifies this`history, this`historyIndex
      ensures History() == old(History()).Recorded(action)
      ensures Valid() && CanUndo() && !CanRedo()
    {
      var newHistory := history[..historyIndex + 1];
      newHistory := newHistory + [action];
      history := LastAtMost(newHistory, HistoryLimit);
      historyIndex := Min(historyIndex + 1, HistoryLimit - 1);
    }

    /** `onConnect`: append an edge with the connection's endpoints and
        handles, and record it. */
    method OnConnect(connection: Connection, now: nat)
      requires Valid()
      modifies this`edges, this`history, this`historyIndex
      ensures edges == old(edges) + [ConnectedEdge(connection, now)]
      ensures edges[|edges| - 1].sourceHandle == connection.sourceHandle
      ensures edges[|edges| - 1].targetHandle == connection.targetHandle
      ensures History() == old(History()).Recorded(WorkflowAction(EdgeAdded(ConnectedEdge(connection, now)), now))
      ensures Valid()
    {
      var edge := ConnectedEdge(connection, now);
      edges := edges + [edge];
      AddToHistory(WorkflowAction(EdgeAdded(edge), now));
    }

    /** `addNode`: a node of the shape's defaults, named from the counter. */
    method AddNode(shape: string, position: Position, now: nat)
      requires Valid()
      modifies this`nodes, this`nodeCounter, this`history, this`historyIndex
      ensures nodes == old(nodes) + [NewNode(shape, position, old(nodeCounter))]
      ensures nodeCounter == old(nodeCounter) + 1
      ensures History() == old(History()).Recorded(WorkflowAction(NodeAdded(NewNode(shape, position, old(nodeCounter))), now))
      ensures Valid()
      ensures old(FreshCounter(nodes, nodeCounter)) ==> FreshCounter(nodes, nodeCounter)
    {
      var newNode := NewNode(shape, position, nodeCounter);
      PlaceNode(shape, position);
      AddToHistory(WorkflowAction(NodeAdded(newNode), now));
    }

    /** The graph half of `addNode`: append the new node and advance the
        counter; the log is not touched. */
    method PlaceNode(shape: string, position: Position)
      modifies this`nodes, this`nodeCounter
      ensures nodes == old(nodes) + [NewNode(shape, position, old(nodeCounter))]
      ensures nodeCounter == old(nodeCounter) + 1
      ensures old(FreshCounter(nodes, nodeCounter)) ==> FreshCounter(nodes, nodeCounter)
    {
      var newNode := NewNode(shape, position, nodeCounter);
      if FreshCounter(nodes, nodeCounter) {
        AddNodeKeepsFresh(nodes, shape, position, nodeCounter);
      }
      nodes := nodes + [newNode];
      nodeCounter := nodeCounter + 1;
    }

    /** `deleteNode`: remove the node and every edge touching it, clear the
        selection if it was that node, and record what was removed. */
    method DeleteNode(nodeId: string, now: nat)
      requires Valid()
      modifies this`nodes, this`edges, this`selectedNodeId, this`history, this`historyIndex
      ensures nodes == WithoutNode(old(nodes), nodeId)
      ensures edges == EdgesAvoiding(old(edges), nodeId)
      ensures selectedNodeId == if old(selectedNodeId) == Some(nodeId) then None else old(selectedNodeId)
      ensures History() == old(History()).Recorded(
                WorkflowAction(NodeDeleted(FindNode(old(nodes), nodeId), EdgesTouching(old(edges), nodeId)), now))
      ensures Valid()
      ensures old(FreshCounter(nodes, nodeCounter)) ==> FreshCounter(nodes, nodeCounter)
    {
      var nodeToDelete := FindNode(nodes, nodeId);
      var edgesToDelete := EdgesTouching(edges, nodeId);
      RemoveNode(nodeId);
      AddToHistory(WorkflowAction(NodeDeleted(nodeToDelete, edgesToDelete), now));
    }

    /** The graph half of `deleteNode`: the node, its edges and the selection
        of it go; the log is not touched. */
    method RemoveNode(nodeId: string)
      modifies this`nodes, this`edges, this`selectedNodeId
      ensures nodes == WithoutNode(old(nodes), nodeId)
      ensures edges == EdgesAvoiding(old(edges), nodeId)
      ensures selectedNodeId == if old(selectedNodeId) == Some(nodeId) then None else old(selectedNodeId)
      ensures old(FreshCounter(nodes, nodeCounter)) ==> FreshCounter(nodes, nodeCounter)
    {
      if FreshCounter(nodes, nodeCounter) {
        DeleteNodeKeepsFresh(nodes, nodeId, nodeCounter);
      }
      nodes := WithoutNode(nodes, nodeId);
      edges := EdgesAvoiding(edges, nodeId);
      if selectedNodeId == Some(nodeId) {
        selectedNodeId := None;
      }
    }

    /** `deleteEdge`: remove the edges with that id and record the one found. */
    method DeleteEdge(edgeId: string, now: nat)
      requires Valid()
      modifies this`edges, this`history, this`historyIndex
      ensures edges == WithoutEdge(old(edges), edgeId)
      ensures History() == old(History()).Recorded(WorkflowAction(EdgeDeleted(FindEdge(old(edges), edgeId)), now))
      ensures Valid()
    {
      var edgeToDelete := FindEdge(edges, edgeId);
      edges := WithoutEdge(edges, edgeId);
      AddToHistory(WorkflowAction(EdgeDeleted(edgeToDelete), now));
    }

    /** `updateNodeData`: merge `data` into the node with that id and record
        the node as it was. */
    method UpdateNodeData(nodeId: string, data: Data, now: nat)
      requires Valid()
      modifies this`nodes, this`history, this`historyIndex
      ensures nodes == UpdateNodes(old(nodes), nodeId, data)
      ensures History() == old(History()).Recorded(WorkflowAction(NodeUpdated(FindNode(old(nodes), nodeId), data), now))
      ensures Valid()
      ensures old(FreshCounter(nodes, nodeCounter)) ==> FreshCounter(nodes, nodeCounter)
    {
      var oldNode := FindNode(nodes, nodeId);
      MergeNodeData(nodeId, data);
      AddToHistory(WorkflowAction(NodeUpdated(oldNode, data), now));
    }

    /** The graph half of `updateNodeData`: merge `data` into the node with
        that id; the log is not touched. */
    method MergeNodeData(nodeId: string, data: Data)
      modifies this`nodes
      ensures nodes == UpdateNodes(old(nodes), nodeId, data)
      ensures old(FreshCounter(nodes, nodeCounter)) ==> FreshCounter(nodes, nodeCounter)
    {
      UpdateKeepsFresh(nodes, nodeId, data, nodeCounter);
      nodes := UpdateNodes(nodes, nodeId, data);
    }

    /** `clearWorkflow`: empty the diagram, drop the selection, reset the
        counter to 1, and record the graph as it was. */
    method ClearWorkflow(now: nat)
      requires Valid()
      modifies this`nodes, this`edges, this`selectedNodeId, this`nodeCounter, this`history, this`historyIndex
      ensures nodes == [] && edges == [] && selectedNodeId == None && nodeCounter == 1
      ensures History() == old(History()).Recorded(WorkflowAction(WorkflowCleared(old(Snapshot())), now))
      ensures Valid() && FreshCounter(nodes, nodeCounter)
    {
      var oldState := Graph(nodes, edges);
      nodes := [];
      edges := [];
      selectedNodeId := None;
      nodeCounter := 1;
      AddToHistory(WorkflowAction(WorkflowCleared(oldState), now));
    }

    /** `loadWorkflow`: replace the graph, move the counter past every loaded
        id suffix, and record both graphs. */
    method LoadWorkflow(data: Graph, now: nat)
      requires Valid()
      modifies this`nodes, this`edges, this`nodeCounter, this`history, this`historyIndex
      ensures nodes == data.nodes && edges == data.edges
      ensures nodeCounter == LoadedCounter(data.nodes)
      ensures IdsBelow(nodes, nodeCounter)
      ensures History() == old(History()).Recorded(WorkflowAction(WorkflowLoaded(old(Snapshot()), data), now))
      ensures Valid()
    {
      var oldState := Graph(nodes, edges);
      ReplaceGraph(data);
      AddToHistory(WorkflowAction(WorkflowLoaded(oldState, data), now));
    }

    /** The graph half of `loadWorkflow`: take the loaded graph and move the
        counter past its largest suffix; the log is not touched. */
    method ReplaceGraph(data: Graph)
      modifies this`nodes, this`edges, this`nodeCounter
      ensures nodes == data.nodes && edges == data.edges
      ensures nodeCounter == LoadedCounter(data.nodes)
      ensures IdsBelow(nodes, nodeCounter)
    {
      nodes := data.nodes;
      edges := data.edges;
      var maxCounter := MaxSuffix(data.nodes);
      nodeCounter := maxCounter + 1;
    }

    /** `copySelectedNodes`: the clipboard becomes the selected nodes. */
    method CopySelectedNodes()
      modifies this`copiedNodes
      ensures copiedNodes == SelectedNodes()
      ensures forall i :: 0 <= i < |copiedNodes| ==> copiedNodes[i].selected
    {
      copiedNodes := SelectedNodes();
    }

    /** `pasteNodes`: append a clone of each clipboard node, ids taken from
        the counter in clipboard order; nothing happens on an empty clipboard.
        Not recorded in the history. */
    method PasteNodes()
      modifies this`nodes, this`nodeCounter
      ensures nodes == old(nodes) + Clones(copiedNodes, old(nodeCounter))
      ensures nodeCounter == old(nodeCounter) + |copiedNodes|
      ensures old(FreshCounter(nodes, nodeCounter)) ==> FreshCounter(nodes, nodeCounter)
    {
      if |copiedNodes| == 0 {
        return;
      }
      var newNodes := Clones(copiedNodes, nodeCounter);
      if FreshCounter(nodes, nodeCounter) {
        ClonesKeepFresh(nodes, copiedNodes, nodeCounter);
      }
      nodes := nodes + newNodes;
      nodeCounter := nodeCounter + |copiedNodes|;
    }

    /** `duplicateSelectedNodes`: as paste, from the current selection. */
    method DuplicateSelectedNodes()
      modifies this`nodes, this`nodeCounter
      ensures nodes == old(nodes) + Clones(old(SelectedNodes()), old(nodeCounter))
      ensures nodeCounter == old(nodeCounter) + |old(SelectedNodes())|
      ensures old(FreshCounter(nodes, nodeCounter)) ==> FreshCounter(nodes, nodeCounter)
    {
      var selected := SelectedNodes();
      if |selected| == 0 {
        return;
      }
      var newNodes := Clones(selected, nodeCounter);
      if FreshCounter(nodes, nodeCounter) {
        ClonesKeepFresh(nodes, selected, nodeCounter);
      }
      nodes := nodes + newNodes;
      nodeCounter := nodeCounter + |selected|;
    }

    /** `undo`: revert the entry under the cursor and step the cursor back;
        nothing happens when there is nothing to undo. The counter and the
        selection are not restored. */
    method Undo()
      requires Valid()
      modifies this`nodes, this`edges, this`historyIndex
      ensures old(CanUndo()) ==> Snapshot() == Workflow.Undone(old(Snapshot()), old(history[historyIndex].payload))
      ensures !old(CanUndo()) ==> Snapshot() == old(Snapshot())
      ensures History() == old(History()).Undone()
      ensures Valid()
    {
      if !CanUndo() {
        return;
      }
      RevertGraph(history[historyIndex].payload);
      historyIndex := historyIndex - 1;
    }

    /** The graph half of `undo`: put back what the entry changed. */
    method RevertGraph(payload: Payload)
      modifies this`nodes, this`edges
      ensures Snapshot() == Workflow.Undone(old(Snapshot()), payload)
    {
      match payload {
        case NodeAdded(n) =>
          nodes := WithoutNode(nodes, n.id);
        case NodeDeleted(n, es) =>
          if n.Some? {
            nodes := nodes + [n.value];
          }
          edges := edges + es;
        case NodeUpdated(_, _) =>
        case EdgeAdded(e) =>
          edges := WithoutEdge(edges, e.id);
        case EdgeDeleted(e) =>
          if e.Some? {
            edges := edges + [e.value];
          }
        case WorkflowCleared(before) =>
          nodes := before.nodes;
          edges := before.edges;
        case WorkflowLoaded(before, _) =>
          nodes := before.nodes;
          edges := before.edges;
      }
    }

    /** `redo`: replay the entry after the cursor and step the cursor forward;
        nothing happens when there is nothing to redo. */
    method Redo()
      requires Valid()
      modifies this`nodes, this`edges, this`historyIndex
      ensures old(CanRedo()) ==> Snapshot() == Workflow.Redone(old(Snapshot()), old(history[historyIndex + 1].payload))
      ensures !old(CanRedo()) ==> Snapshot() == old(Snapshot())
      ensures History() == old(History()).Redone()
      ensures Valid()
    {
      if !CanRedo() {
        return;
      }
      ReplayGraph(history[historyIndex + 1].payload);
      historyIndex := historyIndex + 1;
    }

    /** The graph half of `redo`: apply the entry's change again. */
    method ReplayGraph(payload: Payload)
      modifies this`nodes, this`edges
      ensures Snapshot() == Workflow.Redone(old(Snapshot()), payload)
    {
      match payload {
        case NodeAdded(n) =>
          nodes := nodes + [n];
        case NodeDeleted(n, es) =>
          if n.Some? {
            nodes := WithoutNode(nodes, n.value.id);
          }
          edges := WithoutEdgesOf(edges, es);
        case NodeUpdated(_, _) =>
        case EdgeAdded(e) =>
          edges := edges + [e];
        case EdgeDeleted(e) =>
          if e.Some? {
            edges := WithoutEdge(edges, e.value.id);
          }
        case WorkflowCleared(_) =>
          nodes := [];
          edges := [];
        case WorkflowLoaded(_, after) =>
          nodes := after.nodes;
          edges := after.edges;
      }
    }
  }

  /** The first half of `ClearUndoRepeatsId`: one `addNode`, then a clear
      whose log entry holds that node. */
  method AddThenClear(store: Store, shape: string, position: Position) returns (first: Node)
    requires store.Valid() && store.nodes == [] && store.nodeCounter == 1
    modifies store
    ensures store.Valid() && store.CanUndo() && store.nodes == [] && store.nodeCounter == 1
    ensures first == NewNode(shape, position, 1)
    ensures store.history[store.historyIndex].payload.WorkflowCleared?
    ensures store.history[store.historyIndex].payload.before.nodes == [first]
  {
    first := AddFirst(store, shape, position);
    ClearOne(store, first);
  }

  /** `addNode` on an empty diagram with counter 1. */
  method AddFirst(store: Store, shape: string, position: Position) returns (first: Node)
    requires store.Valid() && store.nodes == [] && store.nodeCounter == 1
    modifies store
    ensures store.Valid() && store.nodes == [first] && store.nodeCounter == 2
    ensures first == NewNode(shape, position, 1)
  {
    first := NewNode(shape, position, 1);
    store.AddNode(shape, position, 1);
  }

  /** `clearWorkflow` on a diagram of one node. */
  method ClearOne(store: Store, first: Node)
    requires store.Valid() && store.nodes == [first]
    modifies store
    ensures store.Valid() && store.CanUndo() && store.nodes == [] && store.nodeCounter == 1
    ensures store.history[store.historyIndex].payload.WorkflowCleared?
    ensures store.history[store.historyIndex].payload.before.nodes == [first]
  {
    store.ClearWorkflow(2);
  }

  /** Undo of a clear that removed one node brings that node back and leaves
      the counter where the clear put it. */
  method UndoClear(store: Store, first: Node)
    requires store.Valid() && store.CanUndo()
    requires store.history[store.historyIndex].payload.WorkflowCleared?
    requires store.history[store.historyIndex].payload.before.nodes == [first]
    modifies store
    ensures store.Valid() && store.nodes == [first] && store.nodeCounter == old(store.nodeCounter)
  {
    store.Undo();
  }

  /** Undo of a clear restores the nodes but not the counter, so the next
      `addNode` repeats an id: on an empty diagram with counter 1, add a node,
      clear, undo and add the same shape again, and the diagram holds the same
      node twice, both with suffix 1 (`rectangle-1` twice for rectangles). */
  method ClearUndoRepeatsId(store: Store, shape: string, position: Position) returns (restored: seq<Node>)
    requires store.Valid() && store.nodes == [] && store.nodeCounter == 1
    modifies store
    ensures restored == store.nodes
    ensures |restored| == 2 && restored[0] == restored[1]
    ensures SuffixNumber(restored[0].id) == 1
    ensures !UniqueIds(restored)
  {
    var first := AddThenClear(store, shape, position);
    UndoClear(store, first);
    restored := AddAfterUndo(store, first, shape, position);
  }

  /** `addNode` with the counter back at 1 and its first node restored. */
  method AddAfterUndo(store: Store, first: Node, shape: string, position: Position) returns (restored: seq<Node>)
    requires store.Valid() && store.nodes == [first] && store.nodeCounter == 1
    requires first == NewNode(shape, position, 1)
    modifies store
    ensures restored == store.nodes && restored == [first, first]
  {
    store.AddNode(shape, position, 3);
    restored := store.nodes;
  }

  /** Loading a diagram whose only node is `rectangle-7` makes the next
      rectangle `rectangle-8`; undo of that add leaves the loaded diagram. */
  method LoadThenAddRectangle(store: Store, loaded: Node, position: Position) returns (added: Node, afterUndo: seq<Node>)
    requires store.Valid() && loaded.id == "rectangle-7"
    modifies store
    ensures added.id == "rectangle-8"
    ensures afterUndo == [loaded]
  {
    RectangleSevenSuffix();
    added := LoadThenAdd(store, loaded, "rectangle", position);
    RectangleEightId();
    store.Undo();
    afterUndo := store.nodes;
    assert afterUndo == [loaded] by {
      assert Filter([loaded, added], (n: Node) => n.id != added.id) == [loaded];
    }
  }

  /** `loadWorkflow` of a diagram whose only node has suffix 7 (such as
      `rectangle-7`) sets the counter to 8. */
  method LoadSuffixSeven(store: Store, loaded: Node)
    requires store.Valid() && SuffixNumber(loaded.id) == 7
    modifies store
    ensures store.Valid() && store.nodes == [loaded] && store.nodeCounter == 8
  {
    store.LoadWorkflow(Graph([loaded], []), 1);
    LoadedCounterOfOne(loaded);
  }

  /** Load a diagram whose only node has suffix 7, then add a node. */
  method LoadThenAdd(store: Store, loaded: Node, shape: string, position: Position) returns (added: Node)
    requires store.Valid() && SuffixNumber(loaded.id) == 7
    modifies store
    ensures store.Valid() && store.CanUndo()
    ensures store.nodes == [loaded, added] && added.id == NodeId(shape, 8)
    ensures store.history[store.historyIndex].payload == NodeAdded(added)
  {
    LoadSuffixSeven(store, loaded);
    added := AddAfterLoad(store, loaded, shape, position);
  }

  /** `addNode` on a diagram of one node with the counter at 8. */
  method AddAfterLoad(store: Store, loaded: Node, shape: string, position: Position) returns (added: Node)
    requires store.Valid() && store.nodes == [loaded] && store.nodeCounter == 8
    modifies store
    ensures store.Valid() && store.CanUndo()
    ensures store.nodes == [loaded, added] && added.id == NodeId(shape, 8)
    ensures store.history[store.historyIndex].payload == NodeAdded(added)
  {
    added := NewNode(shape, position, 8);
    store.AddNode(shape, position, 2);
  }
}
