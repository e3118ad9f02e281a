/** The values the workflow store keeps (src/contexts/WorkflowContext.tsx):
    nodes, edges, the entries of the undo log, and the pure computations the
    store's operations are built from. The store itself, a class whose
    methods update these values in place, is module WorkflowStore. */
module Workflow {
  import opened Common
  import opened Text

  // ---------------------------------------------------------------------------
  // Data model
  // ---------------------------------------------------------------------------

  /** A value of a node's `data` record. */
  datatype Value = Num(n: int) | Str(s: string) | Flag(b: bool)

  /** JavaScript truthiness of a data value (`x || y` picks `y` when `x` is falsy). */
  predicate Truthy(v: Value) {
    match v
    case Num(n) => n != 0
    case Str(s) => s != ""
    case Flag(b) => b
  }

  /** A node's `data` record: label, colours, sizes, font, ... */
  type Data = map<string, Value>

  datatype Position = Position(x: int, y: int)

  /** A diagram node. `styleWidth`/`styleHeight` mirror `style.width` and
      `style.height`; `None` is an absent or undefined entry. */
  datatype Node = Node(
    id: string,
    shape: string,
    position: Position,
    data: Data,
    styleWidth: Option<Value>,
    styleHeight: Option<Value>,
    selected: bool)

  /** A connection request from the canvas: two endpoints and, optionally, the
      handles on them. */
  datatype Connection = Connection(
    source: string,
    target: string,
    sourceHandle: Option<string>,
    targetHandle: Option<string>)

  datatype Edge = Edge(
    id: string,
    source: string,
    target: string,
    sourceHandle: Option<string>,
    targetHandle: Option<string>)

  /** The pair of arrays that undo of a clear or load restores. */
  datatype Graph = Graph(nodes: seq<Node>, edges: seq<Edge>)

  /** The payload of a history entry, one variant per action type. A payload
      looked up with `find` is `None` when nothing was found. */
  datatype Payload =
    | NodeAdded(node: Node)
    | NodeDeleted(deletedNode: Option<Node>, deletedEdges: seq<Edge>)
    | NodeUpdated(oldNode: Option<Node>, newData: Data)
    | EdgeAdded(edge: Edge)
    | EdgeDeleted(deletedEdge: Option<Edge>)
    | WorkflowCleared(before: Graph)
    | WorkflowLoaded(before: Graph, after: Graph)

  datatype WorkflowAction = WorkflowAction(payload: Payload, timestamp: nat)

  // ---------------------------------------------------------------------------
  // Default node data
  // ---------------------------------------------------------------------------

  const KnownShapes: set<string> := {"rectangle", "circle", "diamond", "triangle", "hexagon", "textNote"}

  /** The shape-specific part of a node's default data. */
  datatype ShapeStyle = ShapeStyle(width: int, height: int, background: string, border: string, caption: string)

  /** The `switch (type)` of `getDefaultNodeData`, without the shared base. */
  function ShapeDefaults(shape: string): (st: ShapeStyle)
    ensures st.width > 0 && st.height > 0
    ensures shape !in KnownShapes ==> st.width == 150 && st.height == 80 && st.caption == "Node"
  {
    if shape == "rectangle" then ShapeStyle(180, 80, "#3b82f6", "#1d4ed8", "Process")
    else if shape == "circle" then ShapeStyle(120, 120, "#10b981", "#047857", "Start/End")
    else if shape == "diamond" then ShapeStyle(140, 100, "#f59e0b", "#d97706", "Decision")
    else if shape == "triangle" then ShapeStyle(120, 100, "#ef4444", "#dc2626", "Warning")
    else if shape == "hexagon" then ShapeStyle(140, 120, "#8b5cf6", "#7c3aed", "Preparation")
    else if shape == "textNote" then ShapeStyle(200, 100, "#fef3c7", "#f59e0b", "Add your notes here...")
    else ShapeStyle(150, 80, "#64748b", "#475569", "Node")
  }

  /** The text colour: the shared white, except the note's brown, which the
      note's own entries put over the shared one. */
  function TextColor(shape: string): Value {
    if shape == "textNote" then Str("#92400e") else Str("#ffffff")
  }

  /** The data a new node of the given shape starts with: the shared base
      (border width 2, white text, font size 14, medium weight), then the
      shape's size, colours and label. Total: an unknown shape gets the
      generic grey 150x80 "Node". */
  function DefaultNodeData(shape: string): (d: Data)
    ensures d.Keys == {"borderWidth", "textColor", "fontSize", "fontWeight", "width", "height",
                       "backgroundColor", "borderColor", "label"}
    ensures d["borderWidth"] == Num(2) && d["fontSize"] == Num(14) && d["fontWeight"] == Str("medium")
    ensures d["textColor"] == if shape == "textNote" then Str("#92400e") else Str("#ffffff")
    ensures shape !in KnownShapes ==> d["width"] == Num(150) && d["height"] == Num(80) && d["label"] == Str("Node")
    ensures d["width"].Num? && d["width"].n > 0 && d["height"].Num? && d["height"].n > 0
  {
    var st := ShapeDefaults(shape);
    map["borderWidth" := Num(2), "textColor" := TextColor(shape), "fontSize" := Num(14),
        "fontWeight" := Str("medium"), "width" := Num(st.width), "height" := Num(st.height),
        "backgroundColor" := Str(st.background), "borderColor" := Str(st.border), "label" := Str(st.caption)]
  }

  // ---------------------------------------------------------------------------
  // Node ids and the id counter
  // ---------------------------------------------------------------------------

  /** `${type}-${counter}` */
  function NodeId(shape: string, counter: nat): (r: string)
    ensures |r| > |shape| + 1 && r[..|shape|] == shape && r[|shape|] == '-' && AllDigits(r[|shape| + 1..])
  {
    var digits := NatToString(counter);
    assert (shape + "-" + digits)[|shape| + 1..] == digits;
    shape + "-" + digits
  }

  /** The suffix that loading reads back from an id is the counter that made it,
      whatever the shape name is. */
  lemma NodeIdSuffix(shape: string, counter: nat)
    ensures SuffixNumber(NodeId(shape, counter)) == counter
  {
    SuffixNumberOfSplit(shape, NatToString(counter));
    ParseNatToString(counter);
  }

  /** The node `addNode` builds; its style mirrors the default width and height. */
  function NewNode(shape: string, position: Position, counter: nat): (n: Node)
    ensures n.id == NodeId(shape, counter) && SuffixNumber(n.id) == counter
    ensures n.shape == shape && n.position == position && !n.selected
    ensures n.data == DefaultNodeData(shape)
    ensures n.styleWidth == Some(n.data["width"]) && n.styleHeight == Some(n.data["height"])
  {
    var data := DefaultNodeData(shape);
    NodeIdSuffix(shape, counter);
    Node(NodeId(shape, counter), shape, position, data, Some(data["width"]), Some(data["height"]), false)
  }

  /** No two nodes share an id. */
  predicate UniqueIds(nodes: seq<Node>) {
    forall i, j :: 0 <= i < j < |nodes| ==> nodes[i].id != nodes[j].id
  }

  /** Every node's numeric suffix is below the counter, so the next id the
      counter produces is not taken. */
  predicate IdsBelow(nodes: seq<Node>, counter: nat) {
    forall i :: 0 <= i < |nodes| ==> SuffixNumber(nodes[i].id) < counter
  }

  predicate FreshCounter(nodes: seq<Node>, counter: nat) {
    UniqueIds(nodes) && IdsBelow(nodes, counter)
  }

  /** The largest numeric suffix among the ids, 0 for none
      (`Math.max(...suffixes, 0)`). */
  function MaxSuffix(nodes: seq<Node>): (m: nat)
    ensures forall i :: 0 <= i < |nodes| ==> SuffixNumber(nodes[i].id) <= m
    ensures m == 0 || exists i :: 0 <= i < |nodes| && SuffixNumber(nodes[i].id) == m
  {
    if nodes == [] then 0
    else
      var rest := MaxSuffix(nodes[1..]);
      assert forall i :: 1 <= i < |nodes| ==> nodes[i] == nodes[1..][i - 1];
      if SuffixNumber(nodes[0].id) > rest then SuffixNumber(nodes[0].id) else rest
  }

  /** The counter `loadWorkflow` continues from: one past the largest suffix. */
  function LoadedCounter(nodes: seq<Node>): (c: nat)
    ensures c >= 1 && IdsBelow(nodes, c)
    ensures nodes == [] ==> c == 1
  {
    MaxSuffix(nodes) + 1
  }

  // ---------------------------------------------------------------------------
  // Node and edge edits
  // ---------------------------------------------------------------------------

  /** `nodes.filter(n => n.id !== id)` */
  function WithoutNode(nodes: seq<Node>, id: string): (r: seq<Node>)
    ensures forall i :: 0 <= i < |r| ==> r[i].id != id && r[i] in nodes
    ensures forall i :: 0 <= i < |nodes| && nodes[i].id != id ==> nodes[i] in r
  {
    Filter(nodes, (n: Node) => n.id != id)
  }

  /** `nodes.find(n => n.id === id)` */
  function FindNode(nodes: seq<Node>, id: string): (r: Option<Node>)
    ensures r.Some? <==> exists i :: 0 <= i < |nodes| && nodes[i].id == id
    ensures r.Some? ==> r.value in nodes && r.value.id == id
  {
    Find(nodes, (n: Node) => n.id == id)
  }

  predicate Touches(e: Edge, id: string) {
    e.source == id || e.target == id
  }

  /** The edges a node deletion cascades to. */
  function EdgesTouching(edges: seq<Edge>, id: string): (r: seq<Edge>)
    ensures forall i :: 0 <= i < |r| ==> Touches(r[i], id) && r[i] in edges
    ensures forall i :: 0 <= i < |edges| && Touches(edges[i], id) ==> edges[i] in r
  {
    Filter(edges, (e: Edge) => Touches(e, id))
  }

  /** The edges a node deletion keeps. */
  function EdgesAvoiding(edges: seq<Edge>, id: string): (r: seq<Edge>)
    ensures forall i :: 0 <= i < |r| ==> !Touches(r[i], id) && r[i] in edges
    ensures forall i :: 0 <= i < |edges| && !Touches(edges[i], id) ==> edges[i] in r
  {
    Filter(edges, (e: Edge) => !Touches(e, id))
  }

  /** `edges.filter(e => e.id !== id)` */
  function WithoutEdge(edges: seq<Edge>, id: string): (r: seq<Edge>)
    ensures forall i :: 0 <= i < |r| ==> r[i].id != id && r[i] in edges
    ensures forall i :: 0 <= i < |edges| && edges[i].id != id ==> edges[i] in r
  {
    Filter(edges, (e: Edge) => e.id != id)
  }

  /** `edges.find(e => e.id === id)` */
  function FindEdge(edges: seq<Edge>, id: string): (r: Option<Edge>)
    ensures r.Some? <==> exists i :: 0 <= i < |edges| && edges[i].id == id
    ensures r.Some? ==> r.value in edges && r.value.id == id
  {
    Find(edges, (e: Edge) => e.id == id)
  }

  /** `removed.some(edge => edge.id === id)` */
  predicate HasEdgeId(removed: seq<Edge>, id: string) {
    exists i :: 0 <= i < |removed| && removed[i].id == id
  }

  /** The edges that redo of a node deletion keeps: those whose id is not
      among the deleted edges' ids. */
  function WithoutEdgesOf(edges: seq<Edge>, removed: seq<Edge>): (r: seq<Edge>)
    ensures forall i :: 0 <= i < |r| ==> !HasEdgeId(removed, r[i].id) && r[i] in edges
    ensures forall i :: 0 <= i < |edges| && !HasEdgeId(removed, edges[i].id) ==> edges[i] in r
  {
    Filter(edges, (e: Edge) => !HasEdgeId(removed, e.id))
  }

  predicate UniqueEdgeIds(edges: seq<Edge>) {
    forall i, j :: 0 <= i < j < |edges| ==> edges[i].id != edges[j].id
  }

  /** `data.width || node.style?.width`: a truthy new size wins, otherwise the
      old style entry stays. */
  function StyleSize(d: Data, key: string, current: Option<Value>): Option<Value> {
    if key in d && Truthy(d[key]) then Some(d[key]) else current
  }

  /** One node after `updateNodeData`: a shallow merge of its data, and the
      style size entries refreshed from truthy new sizes. */
  function UpdatedNode(n: Node, d: Data): (r: Node)
    ensures r.id == n.id && r.shape == n.shape && r.position == n.position && r.selected == n.selected
    ensures r.data.Keys == n.data.Keys + d.Keys
    ensures forall k :: k in d ==> r.data[k] == d[k]
    ensures forall k :: k in n.data && k !in d ==> r.data[k] == n.data[k]
    ensures "width" in d && Truthy(d["width"]) ==> r.styleWidth == Some(d["width"])
    ensures !("width" in d && Truthy(d["width"])) ==> r.styleWidth == n.styleWidth
    ensures "height" in d && Truthy(d["height"]) ==> r.styleHeight == Some(d["height"])
    ensures !("height" in d && Truthy(d["height"])) ==> r.styleHeight == n.styleHeight
  {
    n.(data := n.data + d,
       styleWidth := StyleSize(d, "width", n.styleWidth),
       styleHeight := StyleSize(d, "height", n.styleHeight))
  }

  /** `nodes.map(node => node.id === id ? merged : node)` */
  function UpdateNodes(nodes: seq<Node>, id: string, d: Data): (r: seq<Node>)
    ensures |r| == |nodes|
    ensures forall i :: 0 <= i < |nodes| ==> r[i].id == nodes[i].id
    ensures forall i :: 0 <= i < |nodes| && nodes[i].id != id ==> r[i] == nodes[i]
    ensures forall i :: 0 <= i < |nodes| && nodes[i].id == id ==> r[i] == UpdatedNode(nodes[i], d)
  {
    seq(|nodes|, i requires 0 <= i < |nodes| => if nodes[i].id == id then UpdatedNode(nodes[i], d) else nodes[i])
  }

  /** The edge `onConnect` builds: the connection's endpoints and handles as
      they are, and the id `edge-${now}`. */
  function ConnectedEdge(c: Connection, now: nat): (e: Edge)
    ensures e.source == c.source && e.target == c.target
    ensures e.sourceHandle == c.sourceHandle && e.targetHandle == c.targetHandle
  {
    Edge("edge-" + NatToString(now), c.source, c.target, c.sourceHandle, c.targetHandle)
  }

  /** The `i`-th clone made by paste or duplicate: a fresh id from the counter,
      moved by (50, 50), not selected; everything else is copied. */
  function Clone(n: Node, counter: nat, i: nat): (r: Node)
    ensures r.id == NodeId(n.shape, counter + i) && SuffixNumber(r.id) == counter + i
    ensures r.position == Position(n.position.x + 50, n.position.y + 50) && !r.selected
    ensures r.shape == n.shape && r.data == n.data && r.styleWidth == n.styleWidth && r.styleHeight == n.styleHeight
  {
    NodeIdSuffix(n.shape, counter + i);
    n.(id := NodeId(n.shape, counter + i),
       position := Position(n.position.x + 50, n.position.y + 50),
       selected := false)
  }

  function Clones(source: seq<Node>, counter: nat): (r: seq<Node>)
    ensures |r| == |source|
    ensures forall i :: 0 <= i < |r| ==> r[i] == Clone(source[i], counter, i)
  {
    seq(|source|, i requires 0 <= i < |source| => Clone(source[i], counter, i))
  }

  // ---------------------------------------------------------------------------
  // Undo and redo of one history entry
  // ---------------------------------------------------------------------------

  /** What undo does to the graph for the entry under the cursor. An update
      has no case and changes nothing. A deletion whose `find` came back empty
      restores no node or edge (see `UndoDeleteAbsentNodeAsWritten`). */
  function Undone(g: Graph, p: Payload): (r: Graph)
    ensures p.NodeAdded? ==> r.edges == g.edges
    ensures p.NodeAdded? ==> forall i :: 0 <= i < |r.nodes| ==> r.nodes[i].id != p.node.id && r.nodes[i] in g.nodes
    ensures p.NodeAdded? ==> forall i :: 0 <= i < |g.nodes| && g.nodes[i].id != p.node.id ==> g.nodes[i] in r.nodes
    ensures p.NodeAdded? ==> r.nodes == WithoutNode(g.nodes, p.node.id)
    ensures p.NodeDeleted? ==>
              multiset(r.nodes) == multiset(g.nodes) + (if p.deletedNode.Some? then multiset{p.deletedNode.value} else multiset{})
    ensures p.NodeDeleted? ==> multiset(r.edges) == multiset(g.edges) + multiset(p.deletedEdges)
    ensures p.NodeDeleted? ==> g.nodes <= r.nodes && r.edges == g.edges + p.deletedEdges
    ensures p.NodeUpdated? ==> r == g
    ensures p.EdgeAdded? ==> r.nodes == g.nodes
    ensures p.EdgeAdded? ==> forall i :: 0 <= i < |r.edges| ==> r.edges[i].id != p.edge.id && r.edges[i] in g.edges
    ensures p.EdgeAdded? ==> forall i :: 0 <= i < |g.edges| && g.edges[i].id != p.edge.id ==> g.edges[i] in r.edges
    ensures p.EdgeAdded? ==> r.edges == WithoutEdge(g.edges, p.edge.id)
    ensures p.EdgeDeleted? ==> r.nodes == g.nodes
    ensures p.EdgeDeleted? ==>
              multiset(r.edges) == multiset(g.edges) + (if p.deletedEdge.Some? then multiset{p.deletedEdge.value} else multiset{})
    ensures p.EdgeDeleted? ==> g.edges <= r.edges
    ensures (p.WorkflowCleared? || p.WorkflowLoaded?) ==> r == p.before
  {
    match p
    case NodeAdded(n) => g.(nodes := WithoutNode(g.nodes, n.id))
    case NodeDeleted(n, es) =>
      Graph(g.nodes + (if n.Some? then [n.value] else []), g.edges + es)
    case NodeUpdated(_, _) => g
    case EdgeAdded(e) => g.(edges := WithoutEdge(g.edges, e.id))
    case EdgeDeleted(e) => g.(edges := g.edges + (if e.Some? then [e.value] else []))
    case WorkflowCleared(before) => before
    case WorkflowLoaded(before, _) => before
  }

  /** What redo does to the graph for the entry after the cursor. A deletion
      whose `find` came back empty removes no node. */
  function Redone(g: Graph, p: Payload): (r: Graph)
    ensures p.NodeAdded? ==> r.edges == g.edges && multiset(r.nodes) == multiset(g.nodes) + multiset{p.node}
    ensures p.NodeAdded? ==> r.nodes == g.nodes + [p.node]
    ensures p.NodeDeleted? ==>
              forall i :: 0 <= i < |r.edges| ==> !HasEdgeId(p.deletedEdges, r.edges[i].id) && r.edges[i] in g.edges
    ensures p.NodeDeleted? ==>
              forall i :: 0 <= i < |g.edges| && !HasEdgeId(p.deletedEdges, g.edges[i].id) ==> g.edges[i] in r.edges
    ensures p.NodeDeleted? ==> r.edges == WithoutEdgesOf(g.edges, p.deletedEdges)
    ensures p.NodeDeleted? && p.deletedNode.None? ==> r.nodes == g.nodes
    ensures p.NodeDeleted? && p.deletedNode.Some? ==>
              forall i :: 0 <= i < |r.nodes| ==> r.nodes[i].id != p.deletedNode.value.id && r.nodes[i] in g.nodes
    ensures p.NodeDeleted? && p.deletedNode.Some? ==>
              forall i :: 0 <= i < |g.nodes| && g.nodes[i].id != p.deletedNode.value.id ==> g.nodes[i] in r.nodes
    ensures p.NodeDeleted? && p.deletedNode.Some? ==> r.nodes == WithoutNode(g.nodes, p.deletedNode.value.id)
    ensures p.NodeUpdated? ==> r == g
    ensures p.EdgeAdded? ==> r.nodes == g.nodes && multiset(r.edges) == multiset(g.edges) + multiset{p.edge}
    ensures p.EdgeAdded? ==> r.edges == g.edges + [p.edge]
    ensures p.EdgeDeleted? ==> r.nodes == g.nodes
    ensures p.EdgeDeleted? && p.deletedEdge.None? ==> r.edges == g.edges
    ensures p.EdgeDeleted? && p.deletedEdge.Some? ==>
              forall i :: 0 <= i < |r.edges| ==> r.edges[i].id != p.deletedEdge.value.id && r.edges[i] in g.edges
    ensures p.EdgeDeleted? && p.deletedEdge.Some? ==>
              forall i :: 0 <= i < |g.edges| && g.edges[i].id != p.deletedEdge.value.id ==> g.edges[i] in r.edges
    ensures p.EdgeDeleted? && p.deletedEdge.Some? ==> r.edges == WithoutEdge(g.edges, p.deletedEdge.value.id)
    ensures p.WorkflowCleared? ==> r == Graph([], [])
    ensures p.WorkflowLoaded? ==> r == p.after
  {
    match p
    case NodeAdded(n) => g.(nodes := g.nodes + [n])
    case NodeDeleted(n, es) =>
      Graph(if n.Some? then WithoutNode(g.nodes, n.value.id) else g.nodes, WithoutEdgesOf(g.edges, es))
    case NodeUpdated(_, _) => g
    case EdgeAdded(e) => g.(edges := g.edges + [e])
    case EdgeDeleted(e) => g.(edges := if e.Some? then WithoutEdge(g.edges, e.value.id) else g.edges)
    case WorkflowCleared(_) => Graph([], [])
    case WorkflowLoaded(_, after) => after
  }

  // ---------------------------------------------------------------------------
  // The bounded history log
  // ---------------------------------------------------------------------------

  const HistoryLimit: nat := 50

  function Min(a: int, b: int): int {
    if a <= b then a else b
  }

  /** `s.slice(-n)`: the last `n` elements, or all of them if there are fewer. */
  function LastAtMost<T>(s: seq<T>, n: nat): (r: seq<T>)
    ensures |r| == Min(|s|, n)
    ensures r == s[|s| - |r|..]
  {
    if |s| <= n then s else s[|s| - n..]
  }

  /** The history array and its cursor. The cursor is the index of the entry
      that undo reverts next; -1 means nothing to undo. */
  datatype Log = Log(entries: seq<WorkflowAction>, index: int) {

    predicate Valid() {
      -1 <= index < |entries| <= HistoryLimit
    }

    predicate CanUndo() {
      index >= 0
    }

    predicate CanRedo() {
      index < |entries| - 1
    }

    /** `addToHistory`: drop the redo tail, append, keep the last 50, and put
        the cursor on the new entry. */
    function Recorded(a: WorkflowAction): (r: Log)
      requires Valid()
      ensures r.Valid() && r.CanUndo() && !r.CanRedo()
      ensures r.index == |r.entries| - 1 && r.entries[r.index] == a
      ensures |r.entries| == Min(index + 2, HistoryLimit)
      ensures r.entries[..r.index] == entries[index + 2 - |r.entries|..index + 1]
    {
      var kept := entries[..index + 1] + [a];
      assert kept[..|kept| - 1] == entries[..index + 1];
      Log(LastAtMost(kept, HistoryLimit), Min(index + 1, HistoryLimit - 1))
    }

    /** The cursor after undo: one step back, unless there is nothing to undo. */
    function Undone(): (r: Log)
      requires Valid()
      ensures r.Valid() && r.entries == entries
      ensures CanUndo() ==> r.index == index - 1 && r.CanRedo()
      ensures !CanUndo() ==> r == this
    {
      if CanUndo() then this.(index := index - 1) else this
    }

    /** The cursor after redo: one step forward, unless there is nothing to redo. */
    function Redone(): (r: Log)
      requires Valid()
      ensures r.Valid() && r.entries == entries
      ensures CanRedo() ==> r.index == index + 1 && r.CanUndo()
      ensures !CanRedo() ==> r == this
    {
      if CanRedo() then this.(index := index + 1) else this
    }
  }

  /** The log after recording each action of `actions` in turn. */
  function RecordAll(l: Log, actions: seq<WorkflowAction>): (r: Log)
    requires l.Valid()
    ensures r.Valid()
    decreases |actions|
  {
    if actions == [] then l else RecordAll(l.Recorded(actions[0]), actions[1..])
  }
}
