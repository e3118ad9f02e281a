# Workflow diagram store and task board, in Dafny

This project models the core of a React workflow-diagram editor:

- the `WorkflowProvider` store (src/contexts/WorkflowContext.tsx). It holds
  the diagram's nodes and edges, the selection, the node-id counter, the
  clipboard and a bounded undo/redo history of the editing actions.
- the task board that src/components/TaskDashboard.tsx derives from the
  diagram. It has one task per node and one epic per connected component.
  It also has a per-shape priority table, story points and labels, the
  filtering and counting of tasks, status changes and the expanded-task set.

Modules:

- `Common`: `Option`, `Filter` and `Find` (JavaScript's `Array.filter` and
  `Array.find`), and their lemmas.
- `Text`: decimal rendering and parsing, the trailing `-<digits>` id suffix
  that loading reads back, ASCII lower-casing and substring search.
- `Workflow`: the store's data as values. Covered here:
  - nodes, edges, history payloads and the default node data;
  - node ids and the counter;
  - the pure graph edits each action performs;
  - what undo and redo do for each payload;
  - the 50-entry history log (`Log`).
- `WorkflowProperties`: lemmas about `Workflow`. These cover fresh ids, the
  data merge, undo/redo round trips and the history bound.
- `WorkflowStore`: `class Store`, which has the provider's state as fields.
  Each callback is a method whose `modifies` clause names the fields it
  sets. Each method's `ensures` states the new state through `Workflow`'s
  functions. It also states the history entry the method records.
- `Components`: the dashboard's depth-first search. `Dfs` and
  `FindConnectedComponents` are methods with loops. They are proved to
  return the connected components. Each component is connected, closed
  under edges, repeats no id, and no id lies in two components. Every node
  is in one of them.
- `TaskDashboard`: the task and epic derivation, the tables, the filters and
  the statistics. `class Dashboard` holds the board's `tasks`, `epics` and
  `expandedTasks` state.

`Date.now()` is passed to the store's methods as the parameter `now`.

## Model

| member | source | states |
|---|---|---|
| Common.Filter | src/contexts/WorkflowContext.tsx:130 | `filter` keeps exactly the elements satisfying the predicate: every kept element is from the input and satisfies it, and every satisfying element is kept |
| Common.Find | src/contexts/WorkflowContext.tsx:212 | `find` returns a value exactly when some element matches, and then it returns the first matching element |
| Common.FilterAppend | src/contexts/WorkflowContext.tsx:215 | filtering a concatenation filters each part |
| Common.FilterKeepsAll | src/components/TaskDashboard.tsx:229-239 | a filter that every element passes returns its input unchanged |
| Common.FilterPartition | src/contexts/WorkflowContext.tsx:213-216 | the edges `deleteNode` removes and the edges it keeps together are the original edges, as a multiset |
| Common.FilterDropsAll | src/contexts/WorkflowContext.tsx:345 | a filter no element passes returns the empty sequence |
| Common.FilterIsSubsequence | src/components/TaskDashboard.tsx:229-239 | a filter's result is a subsequence of its input, so order is kept |
| Common.FilterHeadIsFind | src/components/TaskDashboard.tsx:85-86 | the first element of a filter's result is what `find` returns with the same predicate |
| Common.FilterCongruent | src/components/TaskDashboard.tsx:229-247 | two predicates that agree on every element filter alike |
| Text.NatToString | src/contexts/WorkflowContext.tsx:191 | a counter renders as a non-empty digit string without a leading zero |
| Text.ParseNatToString | src/contexts/WorkflowContext.tsx:286-287 | `parseInt` of a rendered counter gives the counter back |
| Text.NatToStringInjective | src/components/TaskDashboard.tsx:71 | different numbers render differently |
| Text.TrailingDigits | src/contexts/WorkflowContext.tsx:286 | the run `\d+$` is all digits and is maximal |
| Text.SuffixNumberOfSplit | src/contexts/WorkflowContext.tsx:286-287 | `-(\d+)$` reads the digits after the last dash, whatever precedes the dash |
| Text.SuffixNumberWithoutDash | src/contexts/WorkflowContext.tsx:287 | an id with no dash has no suffix and counts as 0 |
| Text.SuffixNumber | src/contexts/WorkflowContext.tsx:286-287 | a non-zero suffix is the value of a non-empty digit run that ends the id right after a dash |
| Text.ToLowerTwice | src/components/TaskDashboard.tsx:232-233 | lower-casing twice is lower-casing once |
| Text.ToLower | src/components/TaskDashboard.tsx:232-233 | lower-casing keeps the length and maps each character separately |
| Text.ContainsAt | src/components/TaskDashboard.tsx:232-233 | `includes` holds exactly when the term occurs at some index |
| Text.ContainsWitness | src/components/TaskDashboard.tsx:232-233 | when `includes` holds, the term occurs at an index it names |
| Text.OccursContains | src/components/TaskDashboard.tsx:232-233 | an occurrence at any index makes `includes` hold |
| Workflow.ShapeDefaults | src/contexts/WorkflowContext.tsx:53-118 | every shape gets a positive size, and an unknown shape gets the generic 150x80 "Node" |
| Workflow.DefaultNodeData | src/contexts/WorkflowContext.tsx:45-119 | the default data has exactly the base keys plus size, colours and label; the shared base values are fixed; text notes have dark text |
| Workflow.NodeIdSuffix | src/contexts/WorkflowContext.tsx:191 | the suffix that loading reads from `${type}-${counter}` is the counter |
| Workflow.NodeId | src/contexts/WorkflowContext.tsx:191 | the id is the shape, a dash, then a non-empty run of digits |
| Workflow.NewNode | src/contexts/WorkflowContext.tsx:188-199 | a new node's id is `<shape>-<counter>`, and loading reads the counter back from it; it keeps the shape and position, is not selected, carries the shape's default data, and its style size mirrors the data's width and height |
| Workflow.MaxSuffix | src/contexts/WorkflowContext.tsx:284-290 | the result is the largest id suffix, or 0, and bounds every suffix |
| Workflow.LoadedCounter | src/contexts/WorkflowContext.tsx:284-291 | after a load the counter is at least 1 and above every loaded id's suffix |
| WorkflowProperties.LoadedCounterOfOne | src/contexts/WorkflowContext.tsx:284-291 | loading one node continues the counter right after that node's suffix |
| Workflow.WithoutNode | src/contexts/WorkflowContext.tsx:215 | the deletion keeps exactly the nodes with another id |
| Workflow.FindNode | src/contexts/WorkflowContext.tsx:212 | a node is found exactly when one has the id |
| Workflow.EdgesTouching | src/contexts/WorkflowContext.tsx:213 | the cascade takes exactly the edges with the node at either end |
| Workflow.EdgesAvoiding | src/contexts/WorkflowContext.tsx:216 | the kept edges are exactly those touching the node at neither end |
| Workflow.WithoutEdge | src/contexts/WorkflowContext.tsx:231 | deleting an edge keeps exactly the edges with another id |
| Workflow.FindEdge | src/contexts/WorkflowContext.tsx:230 | an edge is found exactly when one has the id |
| Workflow.WithoutEdgesOf | src/contexts/WorkflowContext.tsx:381 | redo of a node deletion keeps exactly the edges whose id is not among the recorded edges |
| Workflow.UpdatedNode | src/contexts/WorkflowContext.tsx:244-255 | a shallow merge: new keys win and old keys stay; a style size changes only for a truthy new size; id, type, position and selection are unchanged |
| Workflow.UpdateNodes | src/contexts/WorkflowContext.tsx:243-257 | every node with the id becomes its merged version, every other node stays as it was; the length and every id stay |
| Workflow.ConnectedEdge | src/contexts/WorkflowContext.tsx:156-173 | the edge keeps the connection's exact endpoints and handles |
| Workflow.Clones | src/contexts/WorkflowContext.tsx:307-315 | the i-th pasted node is the i-th copied node, with id counter+i, moved by 50,50 and not selected |
| Workflow.Clone | src/contexts/WorkflowContext.tsx:307-315 | a clone takes the id `<shape>-<counter+i>` with that suffix, moves by (50, 50), is not selected, and keeps shape, data and style |
| Workflow.LastAtMost | src/contexts/WorkflowContext.tsx:138 | `slice(-n)` is the suffix of length min(len, n) |
| Workflow.Undone | src/contexts/WorkflowContext.tsx:343-365 | undo of an add removes exactly the nodes or edges with that id and keeps every other one, in order; undo of a deletion appends what was found after the current nodes and edges, so as multisets it adds it back; an update changes nothing; a clear or load restores the old graph |
| Workflow.Redone | src/contexts/WorkflowContext.tsx:375-397 | redo of an add appends the node or edge at the end; redo of a deletion removes exactly the node and edges with the found ids and keeps every other one, in order, and removes nothing when nothing was found; an update changes nothing; a clear empties the graph and a load restores the loaded one |
| Workflow.Log.Recorded | src/contexts/WorkflowContext.tsx:134-141 | recording drops the redo tail, appends and keeps at most 50 entries; the cursor is on the new entry, so undo is possible and redo is not |
| Workflow.Log.Undone | src/contexts/WorkflowContext.tsx:338-367 | undo moves the cursor back one, which makes redo possible; with nothing to undo it changes nothing |
| Workflow.Log.Redone | src/contexts/WorkflowContext.tsx:370-399 | redo moves the cursor forward one, which makes undo possible; with nothing to redo it changes nothing |
| Workflow.RecordAll | src/contexts/WorkflowContext.tsx:134-141 | any run of recorded actions leaves a valid log |
| WorkflowProperties.FilterKeepsFresh | src/contexts/WorkflowContext.tsx:215 | removing nodes keeps ids distinct and below the counter |
| WorkflowProperties.FilterKeepsUnique | src/contexts/WorkflowContext.tsx:215 | removing nodes keeps the remaining ids distinct |
| WorkflowProperties.FilterKeepsBelow | src/contexts/WorkflowContext.tsx:215 | removing nodes keeps every remaining suffix below the counter |
| WorkflowProperties.PrependKeepsUnique | src/contexts/WorkflowContext.tsx:215 | a node whose id no other node has can be put in front without repeating an id |
| WorkflowProperties.AddNodeKeepsFresh | src/contexts/WorkflowContext.tsx:188-202 | adding a node keeps ids distinct and below the incremented counter |
| WorkflowProperties.AppendKeepsFresh | src/contexts/WorkflowContext.tsx:188-202 | appending a node whose suffix is the counter and then incrementing the counter keeps ids distinct and fresh |
| WorkflowProperties.DeleteNodeKeepsFresh | src/contexts/WorkflowContext.tsx:215 | deleting a node keeps ids fresh |
| WorkflowProperties.NodeIdsDistinct | src/contexts/WorkflowContext.tsx:191 | two different counter values give different ids, whatever the shapes |
| WorkflowProperties.ClonesKeepFresh | src/contexts/WorkflowContext.tsx:304-319 | pasting keeps all ids distinct and below the advanced counter |
| WorkflowProperties.LoadThenAddIsFresh | src/contexts/WorkflowContext.tsx:284-291 | a node added after a load never reuses a loaded id |
| WorkflowProperties.LoadRectangleSevenThenAdd | src/contexts/WorkflowContext.tsx:284-291 | after loading `rectangle-7` the counter is 8 and the next rectangle is `rectangle-8` |
| WorkflowProperties.LabelSurvivesWidthUpdate | src/contexts/WorkflowContext.tsx:248-252 | a later width update keeps an earlier label and sets the width in both data and style |
| WorkflowProperties.ZeroWidthKeepsStyle | src/contexts/WorkflowContext.tsx:251 | a width of 0 is falsy: the data takes 0 but the style keeps its old width |
| WorkflowProperties.UndoRedoAddNode | src/contexts/WorkflowContext.tsx:345-377 | undo of an add restores the graph, and redo adds the node again |
| WorkflowProperties.UndoRedoConnect | src/contexts/WorkflowContext.tsx:352-384 | undo of a connect restores the graph, and redo adds the edge again |
| WorkflowProperties.FilterUniqueId | src/contexts/WorkflowContext.tsx:212 | with unique ids, filtering by an id that is present gives exactly that node |
| WorkflowProperties.RestoreFoundNode | src/contexts/WorkflowContext.tsx:212-348 | removing a unique id and appending the node found under it gives the same multiset of nodes |
| WorkflowProperties.UndoDeleteNode | src/contexts/WorkflowContext.tsx:211-349 | undo of a node deletion restores the nodes and edges as multisets (order is not restored) |
| WorkflowProperties.RedoRemovesRestoredNode | src/contexts/WorkflowContext.tsx:348-380 | redo removes exactly the node that undo appended |
| WorkflowProperties.RedoRemovesRestoredEdges | src/contexts/WorkflowContext.tsx:349-381 | redo removes exactly the edges that undo appended |
| WorkflowProperties.RedoUndoDeleteNode | src/contexts/WorkflowContext.tsx:347-381 | redo after undo of a node deletion gives back the post-deletion graph |
| WorkflowProperties.RestoreFoundEdge | src/contexts/WorkflowContext.tsx:230-355 | removing a unique edge id and appending the edge found under it gives the same multiset of edges |
| WorkflowProperties.RedoRemovesRestoredEdge | src/contexts/WorkflowContext.tsx:355-387 | redo removes exactly the edge that undo appended |
| WorkflowProperties.UndoRedoDeleteEdge | src/contexts/WorkflowContext.tsx:229-388 | undo of an edge deletion restores the edges as a multiset, and redo gives back the post-deletion graph |
| WorkflowProperties.FilterUniqueEdgeId | src/contexts/WorkflowContext.tsx:230 | with unique edge ids, filtering by a present id gives exactly that edge |
| WorkflowProperties.UndoRedoClear | src/contexts/WorkflowContext.tsx:357-392 | undo of a clear restores the old graph, and redo empties it |
| WorkflowProperties.UndoRedoLoad | src/contexts/WorkflowContext.tsx:361-396 | undo of a load restores the old graph, and redo restores the loaded one |
| WorkflowProperties.UndoRedoUpdateKeepGraph | src/contexts/WorkflowContext.tsx:343-397 | undo and redo of a data update leave the graph as it is: the switch has no case for it |
| WorkflowProperties.UndoThenRedoLog | src/contexts/WorkflowContext.tsx:338-400 | undo then redo returns the log to where it was |
| WorkflowProperties.RecordAfterUndoDropsRedoTail | src/contexts/WorkflowContext.tsx:134-141 | an action recorded after an undo replaces the undone entry, and redo is then impossible |
| WorkflowProperties.FullLogEvictsOldest | src/contexts/WorkflowContext.tsx:138-140 | recording into a full log drops the oldest entry; the cursor stays at 49 |
| WorkflowProperties.LastAtMostAppend | src/contexts/WorkflowContext.tsx:136-138 | trimming to 50 before or after appending gives the same log |
| WorkflowProperties.RecordAllFromTail | src/contexts/WorkflowContext.tsx:134-141 | recording many actions keeps the last 50 of all entries, and the cursor is on the newest |
| WorkflowProperties.RecordedAtTail | src/contexts/WorkflowContext.tsx:134-141 | recording with nothing to redo appends to the whole log, keeps the last 50 and leaves nothing to redo |
| WorkflowProperties.LastAtMostOfLastAtMost | src/contexts/WorkflowContext.tsx:138 | trimming, appending and trimming again equals one trim at the end |
| WorkflowProperties.LastAtMostOfSuffix | src/contexts/WorkflowContext.tsx:138 | dropping a prefix that leaves at least n entries does not change the last n |
| WorkflowProperties.RecordAllFromEmpty | src/contexts/WorkflowContext.tsx:127-141 | from the empty history, the log is the last 50 actions recorded |
| WorkflowProperties.ManyMutationsKeepFifty | src/contexts/WorkflowContext.tsx:138-140 | after 50 or more actions the history is exactly the last 50, and the cursor is 49 |
| WorkflowProperties.AppendPayloadAsWritten | src/contexts/WorkflowContext.tsx:348-355 | the undo as written appends the payload, even an `undefined` one |
| WorkflowProperties.UndoDeleteAbsentNodeAsWritten | src/contexts/WorkflowContext.tsx:211-349 | deleting an absent node and undoing leaves an `undefined` slot at the end of the nodes |
| WorkflowProperties.UndoDeleteAbsentEdgeAsWritten | src/contexts/WorkflowContext.tsx:229-356 | deleting an absent edge and undoing leaves an `undefined` slot at the end of the edges |
| WorkflowProperties.UndoDeleteAbsentNodeIsHarmless | src/contexts/WorkflowContext.tsx:347-388 | in the corrected model, deleting an absent node id then undoing and redoing leaves the nodes unchanged |
| WorkflowProperties.UndoDeleteAbsentEdgeIsHarmless | src/contexts/WorkflowContext.tsx:347-388 | in the corrected model, deleting an absent edge id then undoing and redoing leaves the diagram unchanged |
| WorkflowStore.Store.constructor | src/contexts/WorkflowContext.tsx:122-128 | the initial state is empty, with counter 1 and cursor -1; nothing can be undone or redone |
| WorkflowStore.Store.SelectedNodes | src/contexts/WorkflowContext.tsx:130 | exactly the selected nodes |
| WorkflowStore.Store.SetSelectedNodeId | src/contexts/WorkflowContext.tsx:124 | sets the selection and nothing else |
| WorkflowStore.Store.AddToHistory | src/contexts/WorkflowContext.tsx:134-141 | the history becomes the recorded log, and the cursor is on the new entry |
| WorkflowStore.Store.OnConnect | src/contexts/WorkflowContext.tsx:153-186 | appends the edge with the exact handles and records it |
| WorkflowStore.Store.AddNode | src/contexts/WorkflowContext.tsx:188-209 | appends the new node, increments the counter, records the addition, and keeps ids fresh |
| WorkflowStore.Store.PlaceNode | src/contexts/WorkflowContext.tsx:188-202 | appends the new node and increments the counter, keeping ids fresh; the log is untouched |
| WorkflowStore.Store.DeleteNode | src/contexts/WorkflowContext.tsx:211-227 | removes the node and its edges, clears a matching selection, records what was found, and keeps ids fresh |
| WorkflowStore.Store.RemoveNode | src/contexts/WorkflowContext.tsx:215-220 | removes the node and its edges and clears a matching selection, keeping ids fresh; the log is untouched |
| WorkflowStore.Store.DeleteEdge | src/contexts/WorkflowContext.tsx:229-238 | removes the edge and records what was found |
| WorkflowStore.Store.UpdateNodeData | src/contexts/WorkflowContext.tsx:240-264 | merges the data into the node with that id and records the old node |
| WorkflowStore.Store.MergeNodeData | src/contexts/WorkflowContext.tsx:243-257 | merges the data into the node with that id, keeping ids fresh; the log is untouched |
| WorkflowProperties.UpdateKeepsFresh | src/contexts/WorkflowContext.tsx:240-264 | a data update changes no id, so the ids are distinct and below the counter after it exactly when they were before |
| WorkflowStore.Store.ClearWorkflow | src/contexts/WorkflowContext.tsx:266-278 | empties the diagram and selection, resets the counter to 1, and records the old graph |
| WorkflowStore.Store.LoadWorkflow | src/contexts/WorkflowContext.tsx:280-298 | installs the loaded graph, sets the counter above every suffix, and records both graphs |
| WorkflowStore.Store.ReplaceGraph | src/contexts/WorkflowContext.tsx:282-291 | installs the loaded graph and sets the counter above every loaded suffix; the log is untouched |
| WorkflowStore.Store.CopySelectedNodes | src/contexts/WorkflowContext.tsx:300-302 | the clipboard becomes the selected nodes |
| WorkflowStore.Store.PasteNodes | src/contexts/WorkflowContext.tsx:304-319 | appends the clones of the clipboard, advances the counter by their number, and keeps ids fresh |
| WorkflowStore.Store.DuplicateSelectedNodes | src/contexts/WorkflowContext.tsx:321-336 | appends clones of the selected nodes, advances the counter, and keeps ids fresh |
| WorkflowStore.Store.Undo | src/contexts/WorkflowContext.tsx:338-368 | applies the inverse of the entry at the cursor and moves the cursor back; with nothing to undo it changes nothing |
| WorkflowStore.Store.RevertGraph | src/contexts/WorkflowContext.tsx:343-365 | the graph becomes what `Undone` gives for the entry |
| WorkflowStore.Store.Redo | src/contexts/WorkflowContext.tsx:370-400 | re-applies the entry after the cursor and moves the cursor forward; with nothing to redo it changes nothing |
| WorkflowStore.Store.ReplayGraph | src/contexts/WorkflowContext.tsx:375-397 | the graph becomes what `Redone` gives for the entry |
| WorkflowStore.AddThenClear | src/contexts/WorkflowContext.tsx:266-278 | from a fresh store, add then clear leaves an empty diagram, counter 1, and a clear entry holding the added node |
| WorkflowStore.AddFirst | src/contexts/WorkflowContext.tsx:188-208 | adding to a fresh store gives one node built with counter 1, and the counter becomes 2 |
| WorkflowStore.ClearOne | src/contexts/WorkflowContext.tsx:266-278 | clearing a one-node diagram empties it, resets the counter to 1 and records the node for undo |
| WorkflowStore.UndoClear | src/contexts/WorkflowContext.tsx:357-360 | undo of that clear brings the node back and leaves the counter where it was |
| WorkflowStore.ClearUndoRepeatsId | src/contexts/WorkflowContext.tsx:357-360 | undo of a clear does not restore the counter, so the next added node repeats an id |
| WorkflowStore.AddAfterUndo | src/contexts/WorkflowContext.tsx:188-208 | with the first node restored and the counter back at 1, adding appends that same node a second time |
| WorkflowStore.LoadThenAddRectangle | src/contexts/WorkflowContext.tsx:280-298 | after loading `rectangle-7` the next rectangle is `rectangle-8`, and undo removes just that one |
| WorkflowStore.LoadSuffixSeven | src/contexts/WorkflowContext.tsx:280-291 | loading a diagram whose only node has suffix 7 (such as `rectangle-7`) sets the nodes to it and the counter to 8 |
| WorkflowStore.LoadThenAdd | src/contexts/WorkflowContext.tsx:188-208 | adding a node of any shape after that load appends `<shape>-8` and records it for undo |
| WorkflowStore.AddAfterLoad | src/contexts/WorkflowContext.tsx:188-208 | with one node and the counter at 8, adding appends a node with id `<shape>-8` and records it for undo |
| Components.ReachedFromFirst | src/components/TaskDashboard.tsx:135-147 | a search-tree-ordered component is connected: each id is reached from the first by a walk along edges |
| Components.PushedTwice | src/components/TaskDashboard.tsx:135-147 | two successive searches push new, distinct ids and mark exactly those |
| Components.Dfs | src/components/TaskDashboard.tsx:135-147 | pushes the start id first, then only unvisited ids, each once, and marks exactly those; each pushed id has all its neighbours visited and hangs off an earlier pushed id |
| Components.Descend | src/components/TaskDashboard.tsx:140-146 | the recursive call on an unvisited neighbour leaves the caller's pushed ids distinct, marked and hanging off the caller's id |
| Components.Absorb | src/components/TaskDashboard.tsx:140-146 | after a recursive call, the pushed ids and the neighbour facts carry over to the caller's loop |
| Components.JoinAbsorb | src/components/TaskDashboard.tsx:140-146 | a recursive call's ids hang off the caller's id, so the search tree grows by a subtree |
| Components.FindConnectedComponents | src/components/TaskDashboard.tsx:118-133 | the result is the connected components: each is non-empty, connected, closed under edges and repeats no id; every node is in one; no id is in two; each starts at the first node, in node order, that no earlier component holds, so none is without a node |
| Components.VisitNode | src/components/TaskDashboard.tsx:122-129 | one turn of the outer loop: a node not yet visited starts a new component, and every node searched so far stays covered |
| Components.ComponentsFound | src/components/TaskDashboard.tsx:118-133 | once every node is visited, the components cover all nodes, are disjoint and closed, and each starts at a node in node order |
| Components.NewComponent | src/components/TaskDashboard.tsx:122-129 | a search started outside a closed visited set finds a closed component, and the visited set stays closed |
| Components.FlattenAppend | src/components/TaskDashboard.tsx:127 | pushing a component extends the flattened ids by it |
| Components.DistinctAppend | src/components/TaskDashboard.tsx:127 | appending fresh distinct ids keeps the flattened ids distinct |
| Components.FlattenPrefix | src/components/TaskDashboard.tsx:120-132 | the flattened prefix of the components is a prefix of the flattened whole |
| Components.FlattenAt | src/components/TaskDashboard.tsx:120-132 | locates each component's ids in the flattened sequence |
| Components.FlattenGrows | src/components/TaskDashboard.tsx:120-132 | a longer prefix of components flattens to a longer prefix |
| Components.FlattenMember | src/components/TaskDashboard.tsx:120-132 | a visited id lies in some component |
| Components.ComponentsApart | src/components/TaskDashboard.tsx:120-132 | ids of two different components differ |
| Components.OnlyOneComponent | src/components/TaskDashboard.tsx:120-132 | no id lies in two components |
| Components.ComponentDistinct | src/components/TaskDashboard.tsx:120-132 | no component repeats an id |
| Components.OrderStep | src/components/TaskDashboard.tsx:122-130 | a component started at the first unvisited node keeps the components in node order |
| Components.ComponentHeads | src/components/TaskDashboard.tsx:118-133 | each component begins with the id of a node, so none is made up |
| Components.NodesCovered | src/components/TaskDashboard.tsx:122-130 | once every node is visited, every node lies in some component |
| Components.ComponentsDisjoint | src/components/TaskDashboard.tsx:120-132 | distinct flattened ids mean no id lies in two components |
| Components.EdgesStayInside | src/components/TaskDashboard.tsx:135-147 | each edge has both ends in a component or neither |
| TaskDashboard.PriorityOf | src/components/TaskDashboard.tsx:149-157 | the priority is lowest exactly when the shape is not one of the four ranked shapes |
| TaskDashboard.StoryPointsOf | src/components/TaskDashboard.tsx:159-167 | the story points always agree with the priority table shape by shape |
| TaskDashboard.PointsFollowPriority | src/components/TaskDashboard.tsx:149-167 | a higher priority always carries more story points |
| TaskDashboard.LabelsOf | src/components/TaskDashboard.tsx:169-178 | the ranked shapes and the circle get two labels; every other shape, and only those, gets `["general"]` |
| TaskDashboard.TaskIdInjective | src/components/TaskDashboard.tsx:76-102 | different node ids give different task ids |
| TaskDashboard.ShapeOf | src/components/TaskDashboard.tsx:98 | `node.type || 'rectangle'`: the shape when there is one, otherwise `rectangle`; never empty |
| TaskDashboard.TypeText | src/components/TaskDashboard.tsx:95-96 | the type as a template literal renders it: the shape when there is one; never empty |
| TaskDashboard.LabelOf | src/components/TaskDashboard.tsx:95-96 | a label is used exactly when the data has a truthy `label`, and it is then non-empty |
| TaskDashboard.IncomingHead | src/components/TaskDashboard.tsx:85-86 | the first incoming edge is the head of the filtered incoming edges |
| TaskDashboard.ParentTaskId | src/components/TaskDashboard.tsx:84-87 | the parent is the task of the first incoming edge's source, when there is one and its source is non-empty |
| TaskDashboard.SubtaskIds | src/components/TaskDashboard.tsx:89-91 | the subtasks are exactly the tasks of the outgoing edges' targets, one per outgoing edge, in edge order |
| TaskDashboard.TargetTasks | src/components/TaskDashboard.tsx:91 | one task id per edge, the task of its target, in edge order |
| TaskDashboard.SubtasksOfOutgoing | src/components/TaskDashboard.tsx:89-91 | the mapped outgoing edges name exactly the targets of the edges that leave the node |
| TaskDashboard.NewTask | src/components/TaskDashboard.tsx:80-111 | a new task carries the node's id; its node type is `node.type` or `rectangle`, and its priority, points and labels follow that type; the title is the truthy label or `<type> Task`, and the description names the type and the label or `Untitled`; it is unassigned, reported by `System` and in progress only for the first node; its parent and subtasks come from the edges |
| TaskDashboard.GenerateTasks | src/components/TaskDashboard.tsx:80-112 | one task per node in order; the first existing task for a node is kept unchanged, and otherwise a new task is made |
| TaskDashboard.GeneratedTaskIds | src/components/TaskDashboard.tsx:80-112 | generation keeps each task's id tied to its node, and with distinct node ids the task ids are distinct |
| TaskDashboard.RegenerateIsStable | src/components/TaskDashboard.tsx:67-116 | regenerating from the same diagram changes no task |
| TaskDashboard.Epics | src/components/TaskDashboard.tsx:70-77 | one epic per component, numbered by index; colours cycle through five; tasks follow the component's order |
| TaskDashboard.MakeEpic | src/components/TaskDashboard.tsx:70-77 | the epic is numbered from the index, coloured from the palette, at progress 0, and lists a task exactly for each id of the component, in order; its description gives the number of tasks it lists |
| TaskDashboard.EpicIdsDistinct | src/components/TaskDashboard.tsx:71 | no two epics share an id |
| TaskDashboard.EpicOfEachNode | src/components/TaskDashboard.tsx:67-116 | each node's task is in exactly one epic |
| TaskDashboard.EpicOfCovered | src/components/TaskDashboard.tsx:70-77 | an id in some component has its task in that component's epic |
| TaskDashboard.EpicUnique | src/components/TaskDashboard.tsx:70-77 | with disjoint components, no task is in two epics |
| TaskDashboard.WithStatus | src/components/TaskDashboard.tsx:211-215 | tasks with the id take the new status; nothing else changes |
| TaskDashboard.StatusChangeKeepsTaskIds | src/components/TaskDashboard.tsx:211-215 | a status change keeps task ids tied to nodes |
| TaskDashboard.Toggled | src/components/TaskDashboard.tsx:217-227 | the id flips in or out of the set, and no other id changes |
| TaskDashboard.ToggleTwice | src/components/TaskDashboard.tsx:217-227 | toggling twice restores the set |
| TaskDashboard.FilteredTasks | src/components/TaskDashboard.tsx:229-239 | exactly the matching tasks, in their order |
| TaskDashboard.NoFilterShowsAll | src/components/TaskDashboard.tsx:229-239 | with the default filters every task is shown |
| TaskDashboard.SearchIgnoresCase | src/components/TaskDashboard.tsx:232-233 | the search gives the same answer for a term and its lower-cased form |
| TaskDashboard.MatchesEpicFirst | src/components/TaskDashboard.tsx:234-235 | with an epic selected, a task is shown exactly when the first epic with that id lists it |
| TaskDashboard.StatusOnlyShowsCount | src/components/TaskDashboard.tsx:231-247 | filtering by one status alone shows exactly the tasks with that status, as many as the statistics count |
| TaskDashboard.CountStatus | src/components/TaskDashboard.tsx:243-247 | the count is at most the number of tasks, and it is 0 exactly when no task has the status |
| TaskDashboard.CountStatusStep | src/components/TaskDashboard.tsx:241-248 | counting a status steps one task at a time |
| TaskDashboard.StatsAddUp | src/components/TaskDashboard.tsx:241-248 | the five status counts add up to the total |
| TaskDashboard.Dashboard.constructor | src/components/TaskDashboard.tsx:57-64 | the board starts with no tasks, no epics and nothing expanded |
| TaskDashboard.Dashboard.Regenerate | src/components/TaskDashboard.tsx:67-116 | the tasks are regenerated from the previous ones; the epics are those of the diagram's connected components, one per component in the order of their first nodes |
| TaskDashboard.Dashboard.UpdateTaskStatus | src/components/TaskDashboard.tsx:211-215 | the tasks become the status-updated list |
| TaskDashboard.Dashboard.ToggleTaskExpansion | src/components/TaskDashboard.tsx:217-227 | the expanded set becomes the toggled set |

## Left out

- React's asynchronous state updates and stale closures are not modelled. Each callback runs to completion on the current state, in the order called. The dashboard's effect reads the previous `tasks`.
- `onNodesChange` and `onEdgesChange` are not modelled. They delegate to reactflow's `applyNodeChanges` and `applyEdgeChanges`, which are not part of this model.
- WorkflowStore.Store.OnConnect: reactflow's `addEdge` is modelled as a plain append. Its dropping of an edge that duplicates an existing connection is foreign code.
- `Date.now()` is the parameter `now`. Edge ids `edge-<now>` are distinct only if the caller's clock advances.
- Edge presentation (`type`, `animated`, `markerEnd`, `style`) is not modelled. The node `style` is reduced to its `width` and `height`.
- Task fields `dueDate`, `createdDate`, `comments` and `attachments` are not modelled. They come from the clock and `Math.random`.
- TaskDashboard.FilteredTasks: `toLowerCase` is modelled for ASCII letters only.
- Text.ParseNatToString: `parseInt` is modelled on unbounded integers. The loss of precision above 2^53 is not modelled.
- Workflow.Clones: `indexOf(node)` is modelled as the node's position. Two identical objects in the clipboard would share the first one's index in JavaScript.
- An absent `node.type` is modelled as the empty string, so an absent type and an empty one are the same here. In the source an absent type renders as `undefined` in a task's title and description, which TaskDashboard.TypeText models. An empty type renders as the empty string there, while TypeText gives `undefined` for it.
- Workflow.Clone: paste and duplicate build ids as `${node.type}-N` (src/contexts/WorkflowContext.tsx:309 and :326). For a node without a type the source gives `undefined-N`, while the model gives `-N`.
- Positions are integers. JavaScript positions are floating-point numbers, so fractional coordinates and rounding are not modelled.
- Components.FindConnectedComponents: the order of ids inside a component is stated as a search-tree order, in which each id is joined by an edge to an earlier one. The exact depth-first order that the edge list determines is not stated.
- Node data values are numbers, strings or booleans. Nested objects and `null` are not modelled.
- Components.Dfs: the `visited` set and the component array that `dfs` mutates are modelled as values passed in and returned.
- `generateDocument`, the completion rate, the icons and colours, the view modes and all rendering are not modelled. They only display state.
- WorkflowStore.Store.Undo: a deletion of an absent id is corrected rather than modelled as written (see Findings).
- WorkflowStore.Store.Redo: redo of a deletion whose `find` came back empty reads `.id` of `undefined` (src/contexts/WorkflowContext.tsx:380 and :387). That throws a TypeError as soon as the filter runs on a non-empty list. The model removes nothing instead, as the corrected undo expects.

## Findings

| source | as written | input that shows it | evidently intended | confidence | as-written member | corrected member |
|---|---|---|---|---|---|---|
| src/contexts/WorkflowContext.tsx:211-349 | `deleteNode` of an id that no node has records `node: undefined`; undo then appends `undefined` to the nodes (and redo reads `.id` of it) | `deleteNode("missing")` on any diagram, then `undo()` | undo of a deletion that removed nothing restores nothing | not executed | WorkflowProperties.UndoDeleteAbsentNodeAsWritten | WorkflowProperties.UndoDeleteAbsentNodeIsHarmless |
| src/contexts/WorkflowContext.tsx:229-356 | `deleteEdge` of an id that no edge has records `undefined`; undo then appends `undefined` to the edges | `deleteEdge("missing")` on any diagram, then `undo()` | undo of a deletion that removed nothing restores nothing | not executed | WorkflowProperties.UndoDeleteAbsentEdgeAsWritten | WorkflowProperties.UndoDeleteAbsentEdgeIsHarmless |
