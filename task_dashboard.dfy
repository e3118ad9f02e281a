/** The task board derived from the diagram (src/components/TaskDashboard.tsx):
    one task per node, one epic per connected component, the per-shape
    priority, story-point and label tables, and the filtering, counting,
    status and expansion operations over the task list. */
module TaskDashboard {
  import opened Common
  import opened Text
  import opened Workflow
  import opened Components

  // ---------------------------------------------------------------------------
  // Data model
  // ---------------------------------------------------------------------------

  datatype Status = Todo | InProgress | Review | Done | Blocked

  datatype Priority = Lowest | Low | Medium | High | Highest

  /** A task. The due and creation dates and the random comment and
      attachment counts are not part of the model. */
  datatype Task = Task(
    id: string,
    title: string,
    description: string,
    status: Status,
    priority: Priority,
    assignee: string,
    reporter: string,
    nodeId: string,
    nodeType: string,
    parentId: Option<string>,
    subtasks: seq<string>,
    storyPoints: nat,
    labels: seq<string>)

  datatype Epic = Epic(
    id: string,
    name: string,
    description: string,
    color: string,
    progress: int,
    tasks: seq<string>)

  /** The board's status filter: `'all'` or one status. */
  datatype StatusFilter = All | Only(status: Status)

  // ---------------------------------------------------------------------------
  // Per-shape tables
  // ---------------------------------------------------------------------------

  const RankedShapes: set<string> := {"triangle", "diamond", "hexagon", "rectangle"}

  /** `getPriorityFromNodeType` */
  function PriorityOf(nodeType: string): (p: Priority)
    ensures p == Lowest <==> nodeType !in RankedShapes
  {
    if nodeType == "triangle" then Highest
    else if nodeType == "diamond" then High
    else if nodeType == "hexagon" then Medium
    else if nodeType == "rectangle" then Low
    else Lowest
  }

  /** The story points that go with each priority. */
  function PointsFor(p: Priority): nat {
    match p
    case Highest => 8
    case High => 5
    case Medium => 3
    case Low => 2
    case Lowest => 1
  }

  function Rank(p: Priority): nat {
    match p
    case Lowest => 0
    case Low => 1
    case Medium => 2
    case High => 3
    case Highest => 4
  }

  /** `getStoryPointsFromNodeType`: the two tables agree shape by shape. */
  function StoryPointsOf(nodeType: string): (points: nat)
    ensures points == PointsFor(PriorityOf(nodeType))
  {
    if nodeType == "triangle" then 8
    else if nodeType == "diamond" then 5
    else if nodeType == "hexagon" then 3
    else if nodeType == "rectangle" then 2
    else 1
  }

  /** A higher priority always carries more story points. */
  lemma PointsFollowPriority(p: Priority, q: Priority)
    requires Rank(p) < Rank(q)
    ensures PointsFor(p) < PointsFor(q)
  {
  }

  /** `getLabelsFromNodeType`: two labels for the four ranked shapes and the
      circle, `["general"]` for anything else. */
  function LabelsOf(nodeType: string): (labels: seq<string>)
    ensures nodeType in RankedShapes || nodeType == "circle" ==> |labels| == 2
    ensures labels == ["general"] <==> !(nodeType in RankedShapes || nodeType == "circle")
  {
    if nodeType == "triangle" then ["urgent", "critical"]
    else if nodeType == "diamond" then ["decision", "review"]
    else if nodeType == "hexagon" then ["preparation", "setup"]
    else if nodeType == "rectangle" then ["process", "development"]
    else if nodeType == "circle" then ["milestone", "endpoint"]
    else ["general"]
  }

  // ---------------------------------------------------------------------------
  // Tasks from nodes
  // ---------------------------------------------------------------------------

  /** `task-${nodeId}` */
  function TaskId(nodeId: string): string {
    "task-" + nodeId
  }

  lemma TaskIdInjective(a: string, b: string)
    requires TaskId(a) == TaskId(b)
    ensures a == b
  {
    assert a == TaskId(a)[5..] && b == TaskId(b)[5..];
  }

  /** `node.type || 'rectangle'`: a node without a shape counts as a rectangle. */
  function ShapeOf(n: Node): (r: string)
    ensures r != "" && (n.shape != "" ==> r == n.shape) && (n.shape == "" ==> r == "rectangle")
  {
    if n.shape == "" then "rectangle" else n.shape
  }

  /** `${node.type}`: an absent type renders as `undefined`. */
  function TypeText(n: Node): (r: string)
    ensures r != "" && (n.shape != "" ==> r == n.shape)
  {
    if n.shape == "" then "undefined" else n.shape
  }

  /** The text of a data value as a template literal renders it. */
  function ValueText(v: Value): string {
    match v
    case Num(n) => IntToString(n)
    case Str(s) => s
    case Flag(b) => if b then "true" else "false"
  }

  /** `node.data.label`, when it is truthy. */
  function LabelOf(n: Node): (r: Option<string>)
    ensures r.Some? <==> "label" in n.data && Truthy(n.data["label"])
    ensures r.Some? ==> r.value != ""
  {
    if "label" in n.data && Truthy(n.data["label"]) then Some(ValueText(n.data["label"])) else None
  }

  /** Edge `j` is the first edge that enters `nodeId`. */
  predicate FirstIncoming(edges: seq<Edge>, nodeId: string, j: int) {
    0 <= j < |edges| && edges[j].target == nodeId
    && forall k :: 0 <= k < j ==> edges[k].target != nodeId
  }

  /** The edges that enter `nodeId`, in edge order. */
  function IncomingTo(edges: seq<Edge>, nodeId: string): seq<Edge> {
    Filter(edges, (e: Edge) => e.target == nodeId)
  }

  /** The edges that leave `nodeId`, in edge order. */
  function OutgoingFrom(edges: seq<Edge>, nodeId: string): seq<Edge> {
    Filter(edges, (e: Edge) => e.source == nodeId)
  }

  /** The head of the incoming edges is the first edge that enters the node. */
  lemma IncomingHead(edges: seq<Edge>, nodeId: string)
    ensures |IncomingTo(edges, nodeId)| > 0 <==> exists j :: FirstIncoming(edges, nodeId, j)
    ensures forall j :: FirstIncoming(edges, nodeId, j) ==> IncomingTo(edges, nodeId)[0] == edges[j]
  {
    var p := (e: Edge) => e.target == nodeId;
    FilterHeadIsFind(edges, p);
    var f := Find(edges, p);
    if f.Some? {
      var i :| 0 <= i < |edges| && edges[i] == f.value && p(edges[i]) && forall k :: 0 <= k < i ==> !p(edges[k]);
      assert FirstIncoming(edges, nodeId, i);
      forall j | FirstIncoming(edges, nodeId, j)
        ensures edges[j] == edges[i]
      {
        assert !(j < i) by { assert p(edges[j]); }
        assert !(i < j) by { assert edges[i].target == nodeId; }
      }
    }
  }

  /** The parent task: the source of the first incoming edge, unless there
      is none or that source is the empty string (which is falsy). */
  function ParentTaskId(edges: seq<Edge>, nodeId: string): (r: Option<string>)
    ensures r.Some? <==> exists j :: FirstIncoming(edges, nodeId, j) && edges[j].source != ""
    ensures forall j :: FirstIncoming(edges, nodeId, j) && edges[j].source != "" ==> r == Some(TaskId(edges[j].source))
  {
    var incoming := IncomingTo(edges, nodeId);
    IncomingHead(edges, nodeId);
    var parentNodeId := if |incoming| > 0 then Some(incoming[0].source) else None;
    if parentNodeId.Some? && parentNodeId.value != "" then Some(TaskId(parentNodeId.value)) else None
  }

  /** `id` is the task of the target of some edge that leaves `nodeId`. */
  predicate OutgoingTarget(edges: seq<Edge>, nodeId: string, id: string) {
    exists j :: 0 <= j < |edges| && edges[j].source == nodeId && id == TaskId(edges[j].target)
  }

  /** The subtasks: one per outgoing edge, its target's task, in edge order. */
  function SubtaskIds(edges: seq<Edge>, nodeId: string): (r: seq<string>)
    ensures forall k :: 0 <= k < |r| ==> OutgoingTarget(edges, nodeId, r[k])
    ensures forall j :: 0 <= j < |edges| && edges[j].source == nodeId ==> TaskId(edges[j].target) in r
    ensures |r| == |OutgoingFrom(edges, nodeId)|
    ensures forall k :: 0 <= k < |r| ==> r[k] == TaskId(OutgoingFrom(edges, nodeId)[k].target)
  {
    var outgoing := OutgoingFrom(edges, nodeId);
    var ids := TargetTasks(outgoing);
    SubtasksOfOutgoing(edges, nodeId, outgoing, ids);
    ids
  }

  /** `edges.map(e => `task-${e.target}`)`. */
  function TargetTasks(edges: seq<Edge>): (r: seq<string>)
    ensures |r| == |edges|
    ensures forall k :: 0 <= k < |r| ==> r[k] == TaskId(edges[k].target)
  {
    seq(|edges|, k requires 0 <= k < |edges| => TaskId(edges[k].target))
  }

  /** Mapping the outgoing edges to their targets' tasks names exactly the
      targets of the edges that leave `nodeId`. */
  lemma SubtasksOfOutgoing(edges: seq<Edge>, nodeId: string, outgoing: seq<Edge>, r: seq<string>)
    requires outgoing == OutgoingFrom(edges, nodeId)
    requires |r| == |outgoing|
    requires forall k :: 0 <= k < |r| ==> r[k] == TaskId(outgoing[k].target)
    ensures forall k :: 0 <= k < |r| ==> OutgoingTarget(edges, nodeId, r[k])
    ensures forall j :: 0 <= j < |edges| && edges[j].source == nodeId ==> TaskId(edges[j].target) in r
  {
    forall k | 0 <= k < |r|
      ensures OutgoingTarget(edges, nodeId, r[k])
    {
      assert outgoing[k] in edges && outgoing[k].source == nodeId;
      var j :| 0 <= j < |edges| && edges[j] == outgoing[k];
      assert r[k] == TaskId(edges[j].target);
    }
    forall j | 0 <= j < |edges| && edges[j].source == nodeId
      ensures TaskId(edges[j].target) in r
    {
      assert edges[j] in outgoing;
      var k :| 0 <= k < |outgoing| && outgoing[k] == edges[j];
      assert r[k] == TaskId(edges[j].target);
    }
  }

  /** The task made for the `index`-th node when it has none yet. */
  function NewTask(n: Node, index: nat, edges: seq<Edge>): (t: Task)
    ensures t.id == TaskId(n.id) && t.nodeId == n.id
    ensures t.status == if index == 0 then InProgress else Todo
    ensures t.storyPoints == PointsFor(t.priority)
    ensures t.nodeType != "" && t.priority == PriorityOf(t.nodeType) && t.labels == LabelsOf(t.nodeType)
    ensures t.parentId == ParentTaskId(edges, n.id) && t.subtasks == SubtaskIds(edges, n.id)
    ensures t.nodeType == ShapeOf(n)
    ensures t.assignee == "Unassigned" && t.reporter == "System"
    ensures LabelOf(n).Some? ==> t.title == LabelOf(n).value
    ensures LabelOf(n).None? ==> t.title == TypeText(n) + " Task"
    ensures LabelOf(n).Some? ==> t.description == "Task generated from " + TypeText(n) + " node: " + LabelOf(n).value
    ensures LabelOf(n).None? ==> t.description == "Task generated from " + TypeText(n) + " node: Untitled"
  {
    var caption := LabelOf(n);
    var shape := ShapeOf(n);
    Task(
      TaskId(n.id),
      if caption.Some? then caption.value else TypeText(n) + " Task",
      "Task generated from " + TypeText(n) + " node: " + (if caption.Some? then caption.value else "Untitled"),
      if index == 0 then InProgress else Todo,
      PriorityOf(shape),
      "Unassigned",
      "System",
      n.id,
      shape,
      ParentTaskId(edges, n.id),
      SubtaskIds(edges, n.id),
      StoryPointsOf(shape),
      LabelsOf(shape))
  }

  /** Task `j` of `tasks` is the first one made for node `nodeId`. */
  predicate FirstFor(tasks: seq<Task>, nodeId: string, j: int) {
    0 <= j < |tasks| && tasks[j].nodeId == nodeId
    && forall k :: 0 <= k < j ==> tasks[k].nodeId != nodeId
  }

  /** One task per node, in node order: the first existing task made for
      that node, unchanged, or else a new one. */
  function GenerateTasks(nodes: seq<Node>, edges: seq<Edge>, existing: seq<Task>): (r: seq<Task>)
    ensures |r| == |nodes|
    ensures forall i :: 0 <= i < |nodes| ==> r[i].nodeId == nodes[i].id
    ensures forall i, j :: 0 <= i < |nodes| && FirstFor(existing, nodes[i].id, j) ==> r[i] == existing[j]
    ensures forall i :: 0 <= i < |nodes| && (forall j :: 0 <= j < |existing| ==> existing[j].nodeId != nodes[i].id)
              ==> r[i] == NewTask(nodes[i], i, edges)
  {
    seq(|nodes|, i requires 0 <= i < |nodes| =>
      match Find(existing, (t: Task) => t.nodeId == nodes[i].id)
      case Some(t) => t
      case None => NewTask(nodes[i], i, edges))
  }

  /** Every task carries the id of the node it was made for. */
  predicate TaskIdsFollowNodes(tasks: seq<Task>) {
    forall i :: 0 <= i < |tasks| ==> tasks[i].id == TaskId(tasks[i].nodeId)
  }

  /** Generation keeps the id invariant, and when node ids are distinct so
      are the ids of the generated tasks. */
  lemma GeneratedTaskIds(nodes: seq<Node>, edges: seq<Edge>, existing: seq<Task>)
    requires TaskIdsFollowNodes(existing)
    ensures TaskIdsFollowNodes(GenerateTasks(nodes, edges, existing))
    ensures UniqueIds(nodes) ==> forall i, j :: 0 <= i < j < |nodes| ==>
              GenerateTasks(nodes, edges, existing)[i].id != GenerateTasks(nodes, edges, existing)[j].id
  {
    var r := GenerateTasks(nodes, edges, existing);
    forall i | 0 <= i < |nodes|
      ensures r[i].id == TaskId(nodes[i].id)
    {
      var f := Find(existing, (t: Task) => t.nodeId == nodes[i].id);
      if f.Some? {
        var j :| 0 <= j < |existing| && existing[j] == f.value && existing[j].nodeId == nodes[i].id
                 && forall k :: 0 <= k < j ==> existing[k].nodeId != nodes[i].id;
        assert FirstFor(existing, nodes[i].id, j);
      }
    }
    if UniqueIds(nodes) {
      forall i, j | 0 <= i < j < |nodes|
        ensures r[i].id != r[j].id
      {
        if r[i].id == r[j].id {
          TaskIdInjective(nodes[i].id, nodes[j].id);
        }
      }
    }
  }

  /** Generating again from the same diagram changes nothing, as long as no
      two nodes share an id. */
  lemma RegenerateIsStable(nodes: seq<Node>, edges: seq<Edge>, existing: seq<Task>)
    requires UniqueIds(nodes)
    ensures GenerateTasks(nodes, edges, GenerateTasks(nodes, edges, existing)) == GenerateTasks(nodes, edges, existing)
  {
    var r := GenerateTasks(nodes, edges, existing);
    var again := GenerateTasks(nodes, edges, r);
    forall i | 0 <= i < |nodes|
      ensures again[i] == r[i]
    {
      assert FirstFor(r, nodes[i].id, i);
    }
  }

  // ---------------------------------------------------------------------------
  // Epics from components
  // ---------------------------------------------------------------------------

  const Palette: seq<string> := ["blue", "green", "purple", "orange", "red"]

  function MakeEpic(index: nat, component: seq<string>): (r: Epic)
    ensures r.id == "epic-" + NatToString(index) && r.name == "Workflow Epic " + NatToString(index + 1)
    ensures r.color == Palette[index % 5] && r.progress == 0
    ensures |r.tasks| == |component| && forall k :: 0 <= k < |component| ==> r.tasks[k] == TaskId(component[k])
    ensures forall x :: x in component <==> TaskId(x) in r.tasks
    ensures r.description == "Epic containing " + NatToString(|r.tasks|) + " related tasks"
  {
    var tasks := seq(|component|, k requires 0 <= k < |component| => TaskId(component[k]));
    assert forall a, b :: TaskId(a) == TaskId(b) ==> a == b by {
      forall a, b | TaskId(a) == TaskId(b)
        ensures a == b
      {
        TaskIdInjective(a, b);
      }
    }
    Epic(
      "epic-" + NatToString(index),
      "Workflow Epic " + NatToString(index + 1),
      "Epic containing " + NatToString(|component|) + " related tasks",
      Palette[index % 5],
      0,
      tasks)
  }

  /** One epic per component: its index in the id, the colours in turn, and
      the component's tasks in component order. */
  function Epics(components: seq<seq<string>>): (r: seq<Epic>)
    ensures |r| == |components|
    ensures forall i :: 0 <= i < |r| ==> r[i].id == "epic-" + NatToString(i) && r[i].color == Palette[i % 5]
    ensures forall i :: 0 <= i < |r| ==> |r[i].tasks| == |components[i]|
    ensures forall i, k :: 0 <= i < |r| && 0 <= k < |components[i]| ==> r[i].tasks[k] == TaskId(components[i][k])
    ensures forall i, x :: 0 <= i < |r| ==> (x in components[i] <==> TaskId(x) in r[i].tasks)
  {
    seq(|components|, i requires 0 <= i < |components| => MakeEpic(i, components[i]))
  }

  /** No two epics share an id. */
  lemma EpicIdsDistinct(components: seq<seq<string>>, i: nat, j: nat)
    requires i < j < |components|
    ensures Epics(components)[i].id != Epics(components)[j].id
  {
    var a, b := NatToString(i), NatToString(j);
    NatToStringInjective(i, j);
    assert ("epic-" + a)[5..] == a && ("epic-" + b)[5..] == b;
  }

  /** Over the components of the diagram, each node's task is in exactly one
      epic. */
  lemma EpicOfEachNode(nodes: seq<Node>, edges: seq<Edge>, components: seq<seq<string>>, n: nat)
    requires IsComponents(nodes, edges, components) && n < |nodes|
    ensures exists e :: 0 <= e < |components| && TaskId(nodes[n].id) in Epics(components)[e].tasks
    ensures forall e1, e2 ::
              (0 <= e1 < |components| && 0 <= e2 < |components|
               && TaskId(nodes[n].id) in Epics(components)[e1].tasks
               && TaskId(nodes[n].id) in Epics(components)[e2].tasks) ==> e1 == e2
  {
    assert CoversNodes(nodes, components) && Disjoint(components);
    EpicOfCovered(components, nodes[n].id);
    EpicUnique(components, nodes[n].id);
  }

  lemma EpicOfCovered(components: seq<seq<string>>, x: string)
    requires InSome(components, x)
    ensures exists e :: 0 <= e < |components| && TaskId(x) in Epics(components)[e].tasks
  {
    var c :| 0 <= c < |components| && x in components[c];
    assert TaskId(x) in Epics(components)[c].tasks;
  }

  lemma EpicUnique(components: seq<seq<string>>, x: string)
    requires Disjoint(components)
    ensures forall e1, e2 ::
              (0 <= e1 < |components| && 0 <= e2 < |components|
               && TaskId(x) in Epics(components)[e1].tasks
               && TaskId(x) in Epics(components)[e2].tasks) ==> e1 == e2
  {
    var epics := Epics(components);
    forall e1, e2 | 0 <= e1 < |components| && 0 <= e2 < |components|
                    && TaskId(x) in epics[e1].tasks && TaskId(x) in epics[e2].tasks
      ensures e1 == e2
    {
      assert x in components[e1] && x in components[e2];
    }
  }

  // ---------------------------------------------------------------------------
  // Board operations
  // ---------------------------------------------------------------------------

  /** `updateTaskStatus`: the tasks with that id take the new status; nothing
      else changes. */
  function WithStatus(tasks: seq<Task>, taskId: string, newStatus: Status): (r: seq<Task>)
    ensures |r| == |tasks|
    ensures forall i :: 0 <= i < |tasks| ==> r[i].(status := tasks[i].status) == tasks[i]
    ensures forall i :: 0 <= i < |tasks| && tasks[i].id == taskId ==> r[i].status == newStatus
    ensures forall i :: 0 <= i < |tasks| && tasks[i].id != taskId ==> r[i] == tasks[i]
  {
    seq(|tasks|, i requires 0 <= i < |tasks| =>
      if tasks[i].id == taskId then tasks[i].(status := newStatus) else tasks[i])
  }

  /** A status change keeps every task's id tied to its node. */
  lemma StatusChangeKeepsTaskIds(tasks: seq<Task>, taskId: string, newStatus: Status)
    requires TaskIdsFollowNodes(tasks)
    ensures TaskIdsFollowNodes(WithStatus(tasks, taskId, newStatus))
  {
  }

  /** `toggleTaskExpansion`: the id switches between expanded and collapsed;
      no other id changes. */
  function Toggled(expanded: set<string>, taskId: string): (r: set<string>)
    ensures taskId in r <==> taskId !in expanded
    ensures forall x :: x != taskId ==> (x in r <==> x in expanded)
  {
    if taskId in expanded then expanded - {taskId} else expanded + {taskId}
  }

  /** Toggling twice gives back the set it started from. */
  lemma ToggleTwice(expanded: set<string>, taskId: string)
    ensures Toggled(Toggled(expanded, taskId), taskId) == expanded
  {
  }

  /** The search term matches the title or the description, case-insensitively. */
  predicate MatchesSearch(t: Task, term: string) {
    Contains(ToLower(t.title), ToLower(term)) || Contains(ToLower(t.description), ToLower(term))
  }

  /** The selected epic is `'all'`, or an epic with that id lists the task.
      An unknown epic id matches nothing. */
  predicate MatchesEpic(t: Task, selectedEpic: string, epics: seq<Epic>) {
    selectedEpic == "all" ||
    match Find(epics, (e: Epic) => e.id == selectedEpic)
    case None => false
    case Some(e) => t.id in e.tasks
  }

  predicate Matches(t: Task, filter: StatusFilter, term: string, selectedEpic: string, epics: seq<Epic>) {
    (filter == All || t.status == filter.status) && MatchesSearch(t, term) && MatchesEpic(t, selectedEpic, epics)
  }

  /** `filteredTasks`: the tasks that pass the status filter, the search and
      the epic selection, in their order. */
  function FilteredTasks(tasks: seq<Task>, filter: StatusFilter, term: string, selectedEpic: string, epics: seq<Epic>): (r: seq<Task>)
    ensures IsSubsequence(r, tasks)
    ensures forall i :: 0 <= i < |r| ==> Matches(r[i], filter, term, selectedEpic, epics)
    ensures forall i :: 0 <= i < |tasks| && Matches(tasks[i], filter, term, selectedEpic, epics) ==> tasks[i] in r
  {
    var keep := (t: Task) => Matches(t, filter, term, selectedEpic, epics);
    FilterIsSubsequence(tasks, keep);
    Filter(tasks, keep)
  }

  /** The search ignores the case of the term too. */
  lemma SearchIgnoresCase(t: Task, term: string)
    ensures MatchesSearch(t, term) <==> MatchesSearch(t, ToLower(term))
  {
    ToLowerTwice(term);
  }

  /** Selecting an epic other than `'all'` shows a task exactly when the first
      epic with that id lists it. */
  lemma MatchesEpicFirst(t: Task, selectedEpic: string, epics: seq<Epic>)
    requires selectedEpic != "all"
    ensures MatchesEpic(t, selectedEpic, epics) <==>
              exists i :: 0 <= i < |epics| && epics[i].id == selectedEpic
                          && (forall k :: 0 <= k < i ==> epics[k].id != selectedEpic) && t.id in epics[i].tasks
  {
    var p := (e: Epic) => e.id == selectedEpic;
    var f := Find(epics, p);
    if f.Some? {
      var i :| 0 <= i < |epics| && epics[i] == f.value && p(epics[i]) && forall k :: 0 <= k < i ==> !p(epics[k]);
      forall j | 0 <= j < |epics| && epics[j].id == selectedEpic && (forall k :: 0 <= k < j ==> epics[k].id != selectedEpic)
        ensures j == i
      {
      }
    }
  }

  /** Filtering by one status alone shows exactly the tasks with that status,
      as many as the statistics count. */
  lemma StatusOnlyShowsCount(tasks: seq<Task>, s: Status, epics: seq<Epic>)
    ensures FilteredTasks(tasks, Only(s), "", "all", epics) == Filter(tasks, (t: Task) => t.status == s)
    ensures |FilteredTasks(tasks, Only(s), "", "all", epics)| == CountStatus(tasks, s)
  {
    assert ToLower("") == "";
    var keep := (t: Task) => Matches(t, Only(s), "", "all", epics);
    forall i | 0 <= i < |tasks|
      ensures keep(tasks[i]) == (tasks[i].status == s)
    {
      assert MatchesSearch(tasks[i], "");
    }
    FilterCongruent(tasks, keep, (t: Task) => t.status == s);
  }

  /** With every filter at its default, the board shows every task. */
  lemma NoFilterShowsAll(tasks: seq<Task>, epics: seq<Epic>)
    ensures FilteredTasks(tasks, All, "", "all", epics) == tasks
  {
    forall i | 0 <= i < |tasks|
      ensures Matches(tasks[i], All, "", "all", epics)
    {
      assert ToLower("") == "";
    }
    FilterKeepsAll(tasks, (t: Task) => Matches(t, All, "", "all", epics));
  }

  /** The counts of `taskStats`. */
  datatype Stats = Stats(total: nat, todo: nat, inProgress: nat, review: nat, done: nat, blocked: nat)

  function CountStatus(tasks: seq<Task>, s: Status): (r: nat)
    ensures r <= |tasks|
    ensures r == 0 <==> forall i :: 0 <= i < |tasks| ==> tasks[i].status != s
  {
    var kept := Filter(tasks, (t: Task) => t.status == s);
    assert |kept| > 0 ==> kept[0] in tasks;
    |kept|
  }

  function TaskStats(tasks: seq<Task>): Stats {
    Stats(|tasks|, CountStatus(tasks, Todo), CountStatus(tasks, InProgress), CountStatus(tasks, Review),
          CountStatus(tasks, Done), CountStatus(tasks, Blocked))
  }

  lemma CountStatusStep(tasks: seq<Task>, s: Status)
    requires tasks != []
    ensures CountStatus(tasks, s) == (if tasks[0].status == s then 1 else 0) + CountStatus(tasks[1..], s)
  {
  }

  /** Every task has exactly one of the five statuses, so the counts add up
      to the total. */
  lemma {:induction false} StatsAddUp(tasks: seq<Task>)
    ensures var st := TaskStats(tasks);
            st.total == st.todo + st.inProgress + st.review + st.done + st.blocked
    decreases |tasks|
  {
    if tasks != [] {
      StatsAddUp(tasks[1..]);
      CountStatusStep(tasks, Todo);
      CountStatusStep(tasks, InProgress);
      CountStatusStep(tasks, Review);
      CountStatusStep(tasks, Done);
      CountStatusStep(tasks, Blocked);
    }
  }

  // ---------------------------------------------------------------------------
  // The dashboard's state
  // ---------------------------------------------------------------------------

  class Dashboard {
    var tasks: seq<Task>
    var epics: seq<Epic>
    var expandedTasks: set<string>

    constructor ()
      ensures tasks == [] && epics == [] && expandedTasks == {}
    {
      tasks := [];
      epics := [];
      expandedTasks := {};
    }

    /** The effect that runs whenever the diagram changes: one epic per
        connected component, one task per node, existing tasks kept. */
    method Regenerate(nodes: seq<Node>, edges: seq<Edge>)
      modifies this`tasks, this`epics
      ensures tasks == GenerateTasks(nodes, edges, old(tasks))
      ensures exists components :: IsComponents(nodes, edges, components) && epics == Epics(components)
    {
      var connectedComponents := FindConnectedComponents(nodes, edges);
      var generatedEpics := Epics(connectedComponents);
      var generatedTasks := GenerateTasks(nodes, edges, tasks);
      tasks := generatedTasks;
      epics := generatedEpics;
    }

    method UpdateTaskStatus(taskId: string, newStatus: Status)
      modifies this`tasks
      ensures tasks == WithStatus(old(tasks), taskId, newStatus)
    {
      tasks := WithStatus(tasks, taskId, newStatus);
    }

    method ToggleTaskExpansion(taskId: string)
      modifies this`expandedTasks
      ensures expandedTasks == Toggled(old(expandedTasks), taskId)
    {
      expandedTasks := Toggled(expandedTasks, taskId);
    }
  }
}
