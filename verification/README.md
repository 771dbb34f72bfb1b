# Workflow node editor engine, modelled in Dafny

The system is a desktop node editor. The user places nodes of catalog types
on a canvas, drags connection lines from output pins to input pins, types
literal values into pins' line edits or picks a data kind in a pin's kind
selector, deletes nodes and lines with the Delete key, saves the canvas to a
workflow file and loads it back, and runs the workflow. A run builds a
dependency map between nodes from the connections, orders the nodes with
Kahn's algorithm (a zero-in-degree `Start` node first), and executes them in
that order. Each input reads the upstream output value or its literal text.
A node's computation is the `run` method of the node's own schema instance,
given that instance and the input vector; the executor takes it as a
parameter. The whole run stops as soon as a node's first output compares equal to
`False`.

The model covers the engine's graph logic:

- `Types` (`types.dfy`): pin kinds, values, schemas, Python's `list.remove`,
  `list.index` and the kind selector's `findText`.
- `Pins` (`pins.dfy`): pin construction from a schema entry, the choice of
  editor, and resolving a dynamic (`none`) pin through the kind selector.
- `Nodes` (`nodes.dfy`): node construction from the catalog.
- `Scene` (`scene.dfy`): the canvas scene as arenas of nodes and lines, its
  item list and connection list, plus `add_node`, `create_connection`,
  `remove_connection`, the drag guards and `get_all_node`.
- `ConnectionLine` (`connectionline.dfy`): `cleanup_connections`.
- `CanvasWidget` (`canvaswidget.dfy`): the Delete-key handler.
- `Scheduler` (`scheduler.dfy`): `_build_dependencies`, `_topological_sort`,
  `_generate_pin_order`.
- `Executor` (`executor.dfy`): `run_node` (register outputs, link inputs,
  execute, halt).
- `AddNode` (`addnode.dfy`): the `Add(int)` node type, with Python's `int(...)`.
- `WorkflowIO` (`workflowio.dfy`): `save_workflow` and `load_workflow` over a
  parsed document.
- `RoundTrip` (`roundtrip.dfy`): save followed by load.
- `DeleteSave` (`deletesave.dfy`): the Delete key followed by a save (see
  Findings).

Object identity is arena position. A node is its index in `Scene.nodes`, a
connection line its index in `Scene.lines`, and a pin a `PinRef(node,
direction, index)`. `Scene.items` is the scene's item list. Node items
come first in the order `items()` reports them, topmost first, so a node added
later comes before the earlier ones. Line items have a lower Z value than
every node (WorkFlowEngine/Canvas/Node/ConnectionLine.py:18-19) and follow all
nodes in creation order, oldest first. `items()` would report lines of equal Z
newest first, but the engine never reads the relative order of lines: it
filters the list for nodes or tests membership. `Scene.connections` is the scene's own `connections` list.

Some behaviours of the code may surprise a reader. The model keeps each of
them as written:

- `remove_connection` marks the start pin unconnected even when it still
  carries other lines. Only the end pin waits for its list to be empty.
- The halt test is Python's `== False`, so the integer `0` and the float
  `0.0` also stop the run, not only `False`.
- When several zero-in-degree nodes have type `Start`, the first in index
  order goes to the front and the others keep their index-order places. The
  docstring of `_topological_sort` (WorkFlowEngine/Canvas/Node/RunNodes.py:43)
  speaks of starting from the `Start` node, as if there were only one.
- A node's output vector may be longer than its output pins; the extra
  values are ignored. A shorter vector raises at the first missing index.
- An input pin with a kind selector always reads its link, even when it is
  unconnected. Having no link, it raises `KeyError`.
- `Add(int)` has one integer output and no gate output.
- Loading accepts negative node and pin numbers, which Python reads from the
  end of the list. The `>= len` test at WorkFlowEngine/WorkflowIO.py:258-260
  can never skip anything, because the indexing just before it has already
  raised for an index that large. Loading does not check pin kinds or
  self-connections.
- A connection record without a `color` still has its four numbers
  remembered before the colour lookup raises. A later record with the same
  numbers is therefore skipped too.
- Save writes the nodes topmost first, and load puts each created node on
  top. A saved-and-reloaded canvas therefore lists its nodes in reverse
  record order, and saving it again writes them reversed.

## Model

| member | source | states |
|---|---|---|
| Types.RemoveFirst | WorkFlowEngine/Canvas/Node/ConnectionLine.py:42-44 | the guarded removal `if x in L: L.remove(x)` used at every call site: a present element is removed once, shortening the list by one and keeping every other element; an absent element leaves the list unchanged, since the guard skips the call; a duplicate-free list loses the element entirely |
| Types.RemoveFirstAt | WorkFlowEngine/Canvas/Node/ConnectionLine.py:43-44 | `list.remove` takes out exactly the first occurrence, the one `list.index` finds, and keeps everything before and after it in order |
| Types.IndexOf | WorkFlowEngine/Canvas/Node/RunNodes.py:36 | `list.index` answers the first position holding the element, and fails exactly when the element is absent |
| Types.FindChoice | WorkFlowEngine/WorkflowIO.py:202-203 | the kind selector finds a text exactly when it names one of int, str, bool, float |
| Pins.SelectKind | WorkFlowEngine/Canvas/Node/Pin.py:73-80 | choosing a kind sets the pin's kind and writes the same kind back into the pin's schema entry; editors, connections and the editable flag are untouched |
| Pins.SelectKindIdempotent | WorkFlowEngine/Canvas/Node/Pin.py:73-80 | choosing the kind already chosen changes neither the pin nor its schema entry |
| Pins.NewPin | WorkFlowEngine/Canvas/Node/Pin.py:9-94 | a new pin is unconnected with no lines; it has a line edit exactly when its entry is editable and neither dynamic nor an image, a kind selector exactly when it is editable and dynamic, never both; a selector starts on int and resolves the pin and its entry to int; otherwise the entry is unchanged |
| Nodes.SetupPins | WorkFlowEngine/Canvas/Node/Node.py:58-64 | one pin per schema entry, in entry order, each built from its own entry; pins start unconnected and match their entry's kind |
| Nodes.CreateNode | WorkFlowEngine/Canvas/Node/Node.py:43-88 | a node exists exactly when its type is in the catalog; its pin counts and kinds follow its own schema copy, its title is the type's display label, and every pin is the fresh pin of its entry |
| Scene.GetAllNodes | WorkFlowEngine/Canvas/CanvasScene.py:163-169 | exactly the node items of the scene, no longer than the item list and duplicate-free when the items are |
| Scene.GetAllNodesAppend | WorkFlowEngine/Canvas/CanvasScene.py:163-169 | the nodes come out in the order their items appear: collecting distributes over splitting the item list |
| Scene.AddNode | WorkFlowEngine/Canvas/CanvasScene.py:24-30 | adding fails exactly for an unknown type; otherwise the created node gets the next id, goes on top of the item list, and lines and connections are unchanged |
| Scene.CreateConnection | WorkFlowEngine/Canvas/CanvasScene.py:116-135 | when the guard (output to input, same kind, different nodes) fails the scene is unchanged; otherwise one new line is appended to the scene's list, the items and both pins' lists, both pins become connected, and no other pin changes |
| Scene.RemoveConnection | WorkFlowEngine/Canvas/CanvasScene.py:137-157 | a connection not in the scene's list changes nothing; otherwise it leaves the list, the items and both pins' lists, the start pin is unflagged unconditionally, the end pin only when its list is empty, and no other pin changes |
| Scene.DragConnect | WorkFlowEngine/Canvas/CanvasScene.py:96-114 | a drag changes the scene only from a startable output pin onto an unconnected input pin that the guard accepts, and then exactly as `create_connection` |
| Scene.DragKeepsInputsSingle | WorkFlowEngine/Canvas/CanvasScene.py:102-104 | connecting by dragging keeps every input pin at one connection at most, with its flag matching its list |
| Scene.RemoveKeepsInputsSingle | WorkFlowEngine/Canvas/CanvasScene.py:137-157 | removing a connection keeps every input pin at one connection at most, flagged exactly when it has one |
| ConnectionLine.RemoveKeepsLinked | WorkFlowEngine/Canvas/CanvasScene.py:137-157 | removing a connection keeps every pin's list duplicate-free and naming only lines that touch the pin |
| Scene.DragKeepsLogicOutputsSingle | WorkFlowEngine/Canvas/CanvasScene.py:40-43 | connecting by dragging keeps every logic output at one connection at most |
| Scene.ConnectHidesEditors | WorkFlowEngine/Canvas/Node/Pin.py:50-55 | after a connection is made, neither pin shows its line edit and neither pin's kind selector is enabled |
| ConnectionLine.CleanPin | WorkFlowEngine/Canvas/Node/ConnectionLine.py:42-45 | a pin that lists the line loses one occurrence and is flagged by whether anything is left; a pin that does not list it is left as it was |
| ConnectionLine.Cleanup | WorkFlowEngine/Canvas/Node/ConnectionLine.py:40-50 | both end pins are cleaned of the line in that way, every other pin is unchanged, the scene's own list and items are untouched, and a line neither pin lists changes nothing |
| ConnectionLine.CleanupIdempotent | WorkFlowEngine/Canvas/Node/ConnectionLine.py:40-50 | a second cleanup of the same line changes nothing |
| ConnectionLine.CleanupSeversEverywhere | WorkFlowEngine/Canvas/Node/ConnectionLine.py:40-50 | in a scene where pins list only their own lines, cleanup removes the line from every pin's list, keeps all other connections, and keeps the scene linked |
| ConnectionLine.CleanupRestoresEditor | WorkFlowEngine/Canvas/Node/ConnectionLine.py:47-50 | the end pin whose only line is cleaned up is left with no lines, showing its line edit if it has one and enabling its kind selector if it has one |
| CanvasWidget.Sever | WorkFlowEngine/Canvas/CanvasWidget.py:127-129 | cleaning up and removing a list of lines takes exactly those lines off the items and keeps the arenas and the scene's connection list |
| CanvasWidget.SeverRemovesExactly | WorkFlowEngine/Canvas/CanvasWidget.py:127-129 | in a linked scene, whatever the order, every pin afterwards lists exactly its former connections minus the severed ones |
| CanvasWidget.RemoveNodes | WorkFlowEngine/Canvas/CanvasWidget.py:132-134 | exactly the selected node items leave the item list |
| CanvasWidget.SelectedPinsDoomed | WorkFlowEngine/Canvas/CanvasWidget.py:115-124 | every connection on any input or output pin of a selected node is collected |
| CanvasWidget.DeleteSelected | WorkFlowEngine/Canvas/CanvasWidget.py:100-137 | after the Delete key the items are the old items minus every collected line and every selected node; the arenas and the scene's connection list are as they were |
| CanvasWidget.DeleteSeversConnections | WorkFlowEngine/Canvas/CanvasWidget.py:106-134 | in a linked scene every pin afterwards lists exactly its uncollected connections, so no pin of a selected node lists anything and unrelated connections stay |
| Scheduler.PinProviders | WorkFlowEngine/Canvas/Node/RunNodes.py:32-35 | the providers found on one pin are exactly the start nodes of its lines that end at that pin |
| Scheduler.NodeProviders | WorkFlowEngine/Canvas/Node/RunNodes.py:31-35 | the providers found over a node's input pins are exactly the nodes feeding one of them |
| Scheduler.ResolveDeps | WorkFlowEngine/Canvas/Node/RunNodes.py:36-38 | resolving providers to list positions succeeds exactly when every provider is listed, adds each position once, and keeps the list duplicate-free |
| Scheduler.NodeDeps | WorkFlowEngine/Canvas/Node/RunNodes.py:31-38 | a node's dependency list exists exactly when all its providers are listed, and it then holds each feeding node's position exactly once |
| Scheduler.BuildDependencies | WorkFlowEngine/Canvas/Node/RunNodes.py:24-40 | every list position gets a list; position `j` is in the list of `k` exactly when node `j` feeds an input pin of node `k`; lists are duplicate-free; a provider outside the list makes the build fail |
| Scheduler.BuiltDepsOk | WorkFlowEngine/Canvas/Node/RunNodes.py:27-38 | the built map has duplicate-free lists naming positions of the map only |
| Scheduler.InDegrees | WorkFlowEngine/Canvas/Node/RunNodes.py:45-48 | a node's starting in-degree is the length of its dependency list |
| Scheduler.InDegreeCountsProviders | WorkFlowEngine/Canvas/Node/RunNodes.py:45-48 | a node's in-degree is the number of distinct nodes feeding it, however many lines join them |
| Scheduler.ZeroFrom | WorkFlowEngine/Canvas/Node/RunNodes.py:51 | exactly the zero-in-degree positions, in ascending order |
| Scheduler.FindStart | WorkFlowEngine/Canvas/Node/RunNodes.py:54-58 | the first zero-in-degree node of type `Start`, with none before it; absent exactly when there is none |
| Scheduler.InitialQueue | WorkFlowEngine/Canvas/Node/RunNodes.py:51-70 | the queue holds each zero-in-degree node once; when one has type `Start`, the first such node leads and the rest follow in index order; otherwise the queue is in index order |
| Scheduler.Relax | WorkFlowEngine/Canvas/Node/RunNodes.py:80-84 | finishing a node lowers by one the in-degree of exactly the nodes that depend on it, and queues, in index order, exactly those whose in-degree reaches zero |
| Scheduler.MissingAppend | WorkFlowEngine/Canvas/Node/RunNodes.py:80-83 | finishing one more node lowers a dependant's count of unfinished dependencies by one, and nobody else's |
| Scheduler.KahnStep | WorkFlowEngine/Canvas/Node/RunNodes.py:74-84 | one turn of the loop keeps the invariant: in-degrees count unfinished dependencies, finished and queued nodes are distinct, queued nodes are ready, every ready node is finished or queued, every finished node follows its dependencies |
| Scheduler.Kahn | WorkFlowEngine/Canvas/Node/RunNodes.py:74-86 | the loop extends the finished list and the queue into an order that is duplicate-free, has each node after all its dependencies, and holds every node whose dependencies it holds |
| Scheduler.TopologicalSort | WorkFlowEngine/Canvas/Node/RunNodes.py:42-86 | the result starts with the initial queue, is duplicate-free, holds valid positions only and no more entries than nodes, puts every node after all its dependencies, and holds every node whose dependencies it all holds |
| Scheduler.StartRunsFirst | WorkFlowEngine/Canvas/Node/RunNodes.py:53-67 | when some zero-in-degree node has type `Start`, the first such node in index order runs first |
| Scheduler.AcyclicSchedulesAll | WorkFlowEngine/Canvas/Node/RunNodes.py:74-86 | with no dependency cycle, the order is a permutation of all node positions |
| Scheduler.StuckNeverScheduled | WorkFlowEngine/Canvas/Node/RunNodes.py:74-84 | nodes on a dependency cycle, and nodes downstream of one, never appear in the order |
| Scheduler.TwoCycleRunsNothing | WorkFlowEngine/Canvas/Node/RunNodes.py:42-86 | two nodes feeding each other and nothing else give an empty order |
| Scheduler.SideVisits | WorkFlowEngine/Canvas/Node/RunNodes.py:97-102 | one visit for each pin of one side from index `k` on, in ascending pin order, and nothing else |
| Scheduler.GeneratePinOrder | WorkFlowEngine/Canvas/Node/RunNodes.py:88-104 | the pin order visits exactly the pins of the nodes in the order, and its length is the total pin count of those nodes |
| Scheduler.NodeVisits | WorkFlowEngine/Canvas/Node/RunNodes.py:93-102 | one node's visits are its input pins in ascending order followed by its output pins in ascending order |
| Scheduler.GeneratePinOrderAppend | WorkFlowEngine/Canvas/Node/RunNodes.py:93-102 | the pin order of two orders one after the other is the two pin orders one after the other, so nodes are visited in execution order |
| Scheduler.InputsBeforeOutputsJoin | WorkFlowEngine/Canvas/Node/RunNodes.py:93-102 | one node's visits followed by visits of other nodes keep every input before every output of the same node |
| Scheduler.InputsVisitedFirst | WorkFlowEngine/Canvas/Node/RunNodes.py:93-102 | for an order listing each node once, every input pin of a node is visited before every output pin of that node |
| Executor.Store | WorkFlowEngine/Canvas/Node/RunNodes.py:151-152 | output `i` goes into output pin `i` of the node; every other table entry is kept |
| Executor.RegisterOutputs | WorkFlowEngine/Canvas/Node/RunNodes.py:121-125 | the table holds exactly the output pins of the scheduled nodes, all `None` |
| Executor.LinkPins | WorkFlowEngine/Canvas/Node/RunNodes.py:129-135 | on one node, every connected input whose first line's upstream pin is in the table is linked to that pin, and nothing else is added; a connected pin with no line raises |
| Executor.LinkInputs | WorkFlowEngine/Canvas/Node/RunNodes.py:126-135 | the links are exactly the connected inputs of scheduled nodes whose first line's upstream pin is in the table, each to that pin; the phase raises exactly when a connected pin has no line |
| Executor.ReadInput | WorkFlowEngine/Canvas/Node/RunNodes.py:141-145 | a connected pin without a selector, or any pin with one, reads its upstream value and raises without a link; otherwise a pin with a line edit reads its text; otherwise it contributes nothing |
| Executor.InputVector | WorkFlowEngine/Canvas/Node/RunNodes.py:138-145 | the input vector has one entry per contributing pin, and it fails exactly when one pin's read fails |
| Executor.PrependPrefix | WorkFlowEngine/Canvas/Node/RunNodes.py:137 | putting the node that ran first in front keeps the executed nodes a prefix of the run |
| Executor.Execute | WorkFlowEngine/Canvas/Node/RunNodes.py:137-152 | the executed nodes are a prefix of the order and all of it on completion; a halt has executed at least one node; a failure is a missing link, too few outputs or a raising computation |
| Executor.StoredChanges | WorkFlowEngine/Canvas/Node/RunNodes.py:151-152 | storing one node's outputs adds only that node's output pins and keeps every other node's entries |
| Executor.ExecuteUnfold | WorkFlowEngine/Canvas/Node/RunNodes.py:137-152 | a run that completes or halts after its first node did so because the first node stored its outputs and the rest of the run went on from there; a halt at the first node leaves the table as it was |
| Executor.StoredContinues | WorkFlowEngine/Canvas/Node/RunNodes.py:137-152 | conversely, when the first node stores its outputs the run is that node followed by the rest of the run from the table holding them |
| Executor.HaltFirst | WorkFlowEngine/Canvas/Node/RunNodes.py:148-150 | a first node whose outputs start with a value equal to `False` halts the run at once with the table untouched |
| Executor.HaltCause | WorkFlowEngine/Canvas/Node/RunNodes.py:137-150 | a halted run ends at a node that, with the final table, read its inputs and returned outputs starting with a value equal to `False` |
| Executor.ExecuteOne | WorkFlowEngine/Canvas/Node/RunNodes.py:148-152 | a single node halts with the table unchanged when its first output compares equal to `False`, and otherwise, given at least one value per output pin, stores them and completes |
| Executor.ExecuteKeepsUnscheduled | WorkFlowEngine/Canvas/Node/RunNodes.py:137-152 | output pins of nodes outside the order keep their values |
| Executor.HaltKeepsLater | WorkFlowEngine/Canvas/Node/RunNodes.py:149-150 | after a halt, the halting node and every node still to run keep the values the table held |
| Executor.ExecuteKeepsKeys | WorkFlowEngine/Canvas/Node/RunNodes.py:137-152 | a run never adds a pin to a table that already lists every scheduled output |
| Executor.RunOrder | WorkFlowEngine/Canvas/Node/RunNodes.py:11-14 | the run order names only nodes of the runner's list |
| Executor.RunWorkflow | WorkFlowEngine/Canvas/Node/RunNodes.py:2-17 | a run fails with a provider-lookup error exactly when some node is fed by a node outside the list, and only listed nodes execute |
| Executor.Launch | WorkFlowEngine/Canvas/Node/RunNodes.py:120-152 | over a sorted order, the executed nodes are a prefix of it, all of it on completion, and no failure is a lookup of a provider |
| Executor.RunRespectsDependencies | WorkFlowEngine/Canvas/Node/RunNodes.py:24-86 | every node that runs, runs after every node feeding one of its input pins |
| Executor.HaltLeavesOutputsNone | WorkFlowEngine/Canvas/Node/RunNodes.py:121-152 | after a halt the table holds exactly the scheduled outputs, and those of the halting node and of every node after it are still `None` |
| Executor.InputSources | WorkFlowEngine/Canvas/Node/RunNodes.py:129-145 | an unconnected pin with a shown line edit and no selector reads its text, a connected pin whose first line's upstream pin is in the table reads that pin's value, and an unconnected pin with a selector raises |
| Executor.LeftOutNotRun | WorkFlowEngine/Canvas/Node/RunNodes.py:74-86 | a node the sort leaves out does not run |
| Executor.MutualDeps | WorkFlowEngine/Canvas/Node/RunNodes.py:29-38 | two nodes feeding each other have each other's positions in their dependency lists |
| Executor.MutualDepsUnscheduled | WorkFlowEngine/Canvas/Node/RunNodes.py:74-84 | two positions depending on each other are both left out of the order |
| Executor.MutualFeedNeverRuns | WorkFlowEngine/Canvas/Node/RunNodes.py:29-84 | two nodes feeding each other are never executed, whatever else the workflow holds |
| AddNode.TrimLeft | WorkFlowEngine/Canvas/Node/CustomNodes/Add/__init__.py:12 | the result is a suffix of the text that starts with a non-space, and everything dropped is space |
| AddNode.TrimRight | WorkFlowEngine/Canvas/Node/CustomNodes/Add/__init__.py:12 | the result is a prefix of the text that ends with a non-space, and everything dropped is space |
| AddNode.ParseInt | WorkFlowEngine/Canvas/Node/CustomNodes/Add/__init__.py:12 | `int(text)` succeeds exactly when the trimmed text is an optional sign followed by digits |
| AddNode.ShowNatValue | WorkFlowEngine/Canvas/Node/CustomNodes/Add/__init__.py:12 | the digits written for a number have that number as their value |
| AddNode.ParseShowInt | WorkFlowEngine/Canvas/Node/CustomNodes/Add/__init__.py:12 | reading back the decimal text of any integer gives that integer |
| AddNode.Truncate | WorkFlowEngine/Canvas/Node/CustomNodes/Add/__init__.py:12 | a float converts to the integer next to it toward zero |
| AddNode.PyInt | WorkFlowEngine/Canvas/Node/CustomNodes/Add/__init__.py:12 | `int(v)` keeps integers, turns booleans into 0 and 1, truncates floats toward zero, parses strings, and raises for `None` and other objects |
| AddNode.ConvertAll | WorkFlowEngine/Canvas/Node/CustomNodes/Add/__init__.py:10-12 | conversion succeeds exactly when every argument converts, and then yields each argument's integer in order |
| AddNode.AddRun | WorkFlowEngine/Canvas/Node/CustomNodes/Add/__init__.py:8-13 | the computation raises exactly when some argument does not convert, and otherwise returns one integer, as many values as the schema has outputs |
| AddNode.ConvertCons | WorkFlowEngine/Canvas/Node/CustomNodes/Add/__init__.py:11-12 | converting one more argument in front puts its integer in front |
| AddNode.AddPair | WorkFlowEngine/Canvas/Node/CustomNodes/Add/__init__.py:10-13 | two arguments that convert to `a` and `b` give `[a + b]` |
| AddNode.AddTypedNumbers | WorkFlowEngine/Canvas/Node/CustomNodes/Add/__init__.py:10-13 | the decimal texts of any two integers add up to their sum |
| AddNode.NotALiteral | WorkFlowEngine/Canvas/Node/CustomNodes/Add/__init__.py:12 | text starting with a letter does not convert |
| AddNode.AddRaisesOnWord | WorkFlowEngine/Canvas/Node/CustomNodes/Add/__init__.py:10-12 | a second argument starting with a letter makes the computation raise, whatever the first argument is |
| AddNode.AddExample | WorkFlowEngine/Canvas/Node/CustomNodes/Add/__init__.py:10-13 | the texts "3" and " 4 " give `[7]` |
| AddNode.AddZeroHalts | WorkFlowEngine/Canvas/Node/CustomNodes/Add/__init__.py:13 | arguments that cancel out give `[0]`, which stops the run |
| AddNode.AddNodeShape | WorkFlowEngine/Canvas/Node/CustomNodes/Add/__init__.py:3-7 | an Add node has two inputs with empty, visible line edits, one output without an editor, and the label 加(int) |
| AddNode.AddAloneRuns | WorkFlowEngine/Canvas/Node/RunNodes.py:120-152 | run on its own, an Add node with two typed integers stores their sum on its output pin, or halts with the output still `None` when the sum is 0 |
| AddNode.AddThreeAndFour | WorkFlowEngine/Canvas/Node/RunNodes.py:120-152 | run on its own with "3" and " 4 " typed in, an Add node completes with 7 on its output pin |
| WorkflowIO.Texts | WorkFlowEngine/WorkflowIO.py:44-58 | one saved text per pin: the line edit's text, else empty |
| WorkflowIO.Choices | WorkFlowEngine/WorkflowIO.py:44-58 | one saved choice per pin: the selector's entry when there is no line edit, else empty |
| WorkflowIO.LastIndexOf | WorkFlowEngine/WorkflowIO.py:36-41 | the number a node is saved under is the last position where it was met, and exists exactly when the node was saved |
| WorkflowIO.SaveConns | WorkFlowEngine/WorkflowIO.py:90-144 | the saved keys are duplicate-free, no more than the listed connections, and exactly the keys of listed connections between saved nodes |
| WorkflowIO.SaveWorkflow | WorkFlowEngine/WorkflowIO.py:36-88 | record `k` of the document is the saved form of the `k`-th node in scene order |
| WorkflowIO.TextPin | WorkFlowEngine/WorkflowIO.py:191-195 | a saved text goes into a pin that has a line edit and leaves every other part of the pin alone |
| WorkflowIO.ChoicePin | WorkFlowEngine/WorkflowIO.py:198-208 | when the pin has a selector and the saved text is non-empty and names a selector entry, the pin and its schema entry are exactly as choosing that entry leaves them; in every other case both are unchanged |
| WorkflowIO.RestoreTexts | WorkFlowEngine/WorkflowIO.py:191-195 | saved text `i` goes to pin `i`, when there is one |
| WorkflowIO.RestoreChoices | WorkFlowEngine/WorkflowIO.py:198-208 | saved choice `i` goes to pin `i` and its schema entry |
| WorkflowIO.RestoreNode | WorkFlowEngine/WorkflowIO.py:191-228 | restoring values keeps the node's title, position, type, pin counts and every pin's connections and flag |
| WorkflowIO.PinRoundTrip | WorkFlowEngine/WorkflowIO.py:44-75 | saving a restored fresh pin and restoring the saved values into a new fresh pin gives back the same pin and schema entry |
| WorkflowIO.NodeRoundTrip | WorkFlowEngine/WorkflowIO.py:78-87 | loading the record saved from a loaded node gives back that same node |
| WorkflowIO.LoadOne | WorkFlowEngine/WorkflowIO.py:188-228 | a record loads exactly when its type is known; its node is created on top and its values restored |
| WorkflowIO.KnownPrefixAll | WorkFlowEngine/WorkflowIO.py:186-188 | all records load exactly when every record's type is known |
| WorkflowIO.LoadNodes | WorkFlowEngine/WorkflowIO.py:186-230 | the load creates one node per leading record of a known type and reports success exactly when every record's type is known |
| WorkflowIO.LoadNodesCreates | WorkFlowEngine/WorkflowIO.py:186-230 | created node `i` is the loaded form of record `i`, appended after what was there |
| WorkflowIO.LoadNodesItems | WorkFlowEngine/WorkflowIO.py:188 | every created node joins the item list, and nothing else does |
| WorkflowIO.PyIndex | WorkFlowEngine/WorkflowIO.py:250-255 | a Python index resolves exactly when it lies between minus the length and the length, to the position it names |
| WorkflowIO.Resolve | WorkFlowEngine/WorkflowIO.py:250-255 | a record that resolves has all four numbers, and names an output pin and an input pin that exist |
| WorkflowIO.LoadConn | WorkFlowEngine/WorkflowIO.py:247-301 | one connection record keeps the scene well-formed and never changes its nodes' shape |
| WorkflowIO.LoadConnAppends | WorkFlowEngine/WorkflowIO.py:263-290 | one record adds at most one line, at the end, listed with the scene and among the items, and otherwise changes neither list |
| WorkflowIO.LoadConnsInputsSingle | WorkFlowEngine/WorkflowIO.py:273-294 | loading connections keeps every input pin at one connection at most |
| WorkflowIO.LoadConnsKeepsConnected | WorkFlowEngine/WorkflowIO.py:289-294 | loading connections never unflags a pin |
| WorkflowIO.LoadConnsLinked | WorkFlowEngine/WorkflowIO.py:289-290 | after loading connections, every pin lists distinct lines that touch it |
| WorkflowIO.LoadConnsFromRecords | WorkFlowEngine/WorkflowIO.py:247-290 | every line the load creates joins the two pins some coloured record names |
| WorkflowIO.LoadConnsConnects | WorkFlowEngine/WorkflowIO.py:263-294 | when records carry colours, every record naming two pins leaves its end pin connected |
| WorkflowIO.LoadConnsSameButLinks | WorkFlowEngine/WorkflowIO.py:289-294 | loading connections changes nodes only in their pins' connection lists and flags |
| WorkflowIO.LoadWorkflow | WorkFlowEngine/WorkflowIO.py:175-303 | a load reports success exactly when the document was read, has both lists, and every node type is known |
| WorkflowIO.NodesLoadedFresh | WorkFlowEngine/WorkflowIO.py:237-244 | right after the nodes are loaded no pin has a connection or a flag |
| WorkflowIO.LoadWorkflowConsistent | WorkFlowEngine/WorkflowIO.py:175-303 | whatever a load ends with, the scene is consistent: inputs carry one line at most, pins list their own lines, and every line and node is listed and shown |
| RoundTrip.RestoredNode | WorkFlowEngine/WorkflowIO.py:78-228 | loading the record saved for any node the editor can produce gives it back, up to its connections |
| RoundTrip.SaveLoadNodes | WorkFlowEngine/WorkflowIO.py:36-230 | loading a saved canvas succeeds, and its nodes are the saved nodes in save order, up to their connections |
| RoundTrip.SaveLoadConnects | WorkFlowEngine/WorkflowIO.py:90-294 | after the reload, the input pin of every listed connection between saved nodes is connected, at the position its node was saved at |
| RoundTrip.SaveLoadLinesSaved | WorkFlowEngine/WorkflowIO.py:90-294 | every line of the reloaded canvas joins the same two pins as some listed connection of the saved canvas |
| DeleteSave.Drop | WorkFlowEngine/Canvas/CanvasWidget.py:127-129 | the list keeps exactly its ids outside the removed set |
| DeleteSave.DeletedLineStillSaved | WorkFlowEngine/Canvas/CanvasWidget.py:127-129 | as written: a deleted line between two surviving nodes leaves the items but stays listed, and its key is still written by the next save |
| DeleteSave.DeleteSelectedFixed | WorkFlowEngine/Canvas/CanvasWidget.py:127-129 | corrected: as the Delete key as written, with exactly the collected connections also taken out of the scene's list |
| DeleteSave.DeleteFixedKeepsListedShown | WorkFlowEngine/Canvas/CanvasWidget.py:127-129 | corrected: when every listed connection was shown before the Delete key, every one still listed is shown after it |
| DeleteSave.DeleteFixedSavesSurvivors | WorkFlowEngine/WorkflowIO.py:90-144 | corrected: every key the save writes after the Delete key belongs to a connection that survived it |

## Left out

- Qt rendering, geometry, colours and pens, tooltips, the grid, zoom, panning, rubber-band selection and context menus are left out: they are display only. Line colours appear only as whether a connection record has one.
- File I/O and JSON are left out. A document is the parsed value, with a missing `nodes` or `connections` list as `None`. An unreadable file is the absent document.
- `Node.run`, `update_position`, `paint` and `update_connections` are left out: they print or redraw.
- The catalog's discovery by file-system scan is replaced by a fixed map from type name to schema. The computations of node types other than `Add(int)` are a parameter of the executor: a function of the node's own schema instance and its input vector. Instance state a `run` method keeps between calls, and any printing or file output it does, are not modelled.
- The ScreenShot, Print and ChangeType node types, the main window, the menus and the test scripts are not part of this model.
- A node record missing `x`, `y` or `node_type` makes the real load raise and return `False`. The model's records always carry them.
- Non-integer JSON values where the load expects a number are not modelled.
- Types.EqualsFalse: a value of any other type, such as an image array, is taken never to halt a run. For a numpy array, `_output[0] == False` gives an array, and the `if` at WorkFlowEngine/Canvas/Node/RunNodes.py:149 raises `ValueError` unless the array has one element. None of the node types in this model puts such an object first.
- AddNode.PyInt: floats are exact real numbers, so there is no NaN and no infinity. Python's `int(nan)` raises `ValueError` and `int(inf)` raises `OverflowError`, and a NaN output would not halt a run, since `nan == False` is false; none of these cases is modelled.
- Python's `int(...)` also accepts underscores between digits, non-ASCII decimal digits and Unicode spaces. `AddNode.ParseInt` accepts ASCII digits and ASCII spaces only.
- RoundTrip.SaveLoadNodes: states the round trip only for canvases whose nodes the editor can produce, meaning each node is, up to its connections, the loaded form of some record. A hand-built node holding a line-edit text on a pin without a line edit would not come back.
- RoundTrip.SaveLoadConnects: states that the end pin of each saved connection is connected after the reload, not that the line ending there starts at the same output pin. In a canvas with two connections into one input (which the Delete-key behaviour below can produce), the reload keeps only the first.
- The Alt-click removal in `mousePressEvent` is covered by `Scene.RemoveConnection` itself. Locating the clicked item is left out.
- The pin picture widget of image pins is modelled only as the absence of a line edit and a kind selector.

## Findings

| source | as written | input that shows it | evidently intended | confidence | as-written member | corrected member |
|---|---|---|---|---|---|---|
| WorkFlowEngine/Canvas/CanvasWidget.py:127-129 | the Delete key cleans each collected line off its pins and removes its item, but leaves it in `scene.connections`, the list `save_workflow` walks | two nodes joined by one line; select only the line, press Delete, save: the file still holds the connection, and loading it brings the line back | deleted lines also leave the scene's connection list, as `remove_connection` does at CanvasScene.py:139-140 | high, not executed | DeleteSave.DeletedLineStillSaved | DeleteSave.DeleteSelectedFixed, with DeleteSave.DeleteFixedSavesSurvivors and DeleteSave.DeleteFixedKeepsListedShown |
