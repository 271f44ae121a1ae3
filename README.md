# Simple mind map — verified model

A Dafny model of the mind map behind the Tk window of `main.py`. The mind map is
one mutable aggregate made of three parts:

- the directed graph `mindmap` of topic names;
- the map `topic_categories` from topic to category;
- the map `notes` from topic to note.

The button handlers change this aggregate: add a topic, connect two topics, rename a
topic, delete a topic (by name or from the topic dialog), save a note, and reset.
Besides these, there is the JSON document that save and load exchange, and the rule
that colours a node by its category.

The modules are:

- `Strings`: Python's `str.strip()` over the whitespace set of `str.isspace()`.
- `Graphs`: the networkx `DiGraph` calls the mind map makes. The nodes are a list
  in insertion order, and the edges are a set of ordered pairs. `add_node`,
  `add_edge`, `add_nodes_from` and `add_edges_from` are modelled, and each adds a
  missing endpoint. `remove_node` takes every incident edge with it. `successors`
  and `predecessors` are modelled too. This module also holds the graph part of a
  rename.
- `Topics`: the message box each handler ends with, as the `Outcome` datatype. It
  also holds the ordered validation checks of add, connect and rename, and the
  changes a rename makes to the category and note maps.
- `Options`: an optional value, for an absent document field and a failed search.
- `Codec`: the saved document as a datatype, with its encoding and its decoding.
- `Palette`: the colour palette, the per-node colour rule, and the search
  highlight.
- `MindMaps`: the class `MindMap`, with the three parts as fields (`nodes`,
  `edges`, `categories`, `notes`) and one method per handler. The text a user typed
  is a parameter, and the message box shown is the returned `Outcome`. A failed
  check leaves the state unchanged (`unchanged(this)`). Every method keeps the graph
  well formed: no repeated node, and every edge endpoint is a node.

Add, connect, delete, save note and reset keep one more invariant, `Invariant()`:

- the category keys are exactly the nodes;
- no two distinct topics are joined in both directions.

Rename keeps it as long as the renamed topic has no self-loop. Connect accepts a
self-loop, and renaming such a topic behaves differently (main.py:253-256):

- the captured edge `(old, old)` is re-added as `(new, old)` and `(old, new)`;
- this brings `old` back as a node without a category;
- it also creates two opposite edges.

The model does this too, and the lemmas `Graphs.RenameSelfLoop` and
`Topics.RenameSelfLoopLosesConsistency` state it.

## Model

| member | source | states |
|---|---|---|
| Strings.Strip | main.py:39 | the stripped text is the part of the input after its leading whitespace; everything after it is whitespace; it neither starts nor ends with whitespace |
| Strings.StripEmptyIff | main.py:43-45 | a stripped entry is empty exactly when the typed text was all whitespace |
| Strings.StripIdempotent | main.py:39 | stripping twice is stripping once |
| Strings.StripUnpadded | main.py:39 | text without surrounding whitespace is unchanged by stripping |
| Graphs.AddNode | main.py:55 | `add_node` keeps a present node in place and appends a new one; the edges are unchanged; well-formedness is kept |
| Graphs.AddEdge | main.py:88 | `add_edge` adds exactly the pair; the node list becomes the old one followed by a missing `u`, then a missing `v` that differs from `u` |
| Graphs.AddNodesFrom | main.py:218 | `add_nodes_from` gives exactly the old nodes plus the listed ones; the edges are unchanged |
| Graphs.AddEdgesFrom | main.py:219 | `add_edges_from` gives the old edges plus the listed pairs; the nodes become the old ones plus every endpoint; no node is added when all endpoints are present |
| Graphs.Without | main.py:270 | the node list without one name holds exactly the other names, and has no repeats when the original had none; it is the original when the name is absent |
| Graphs.RemoveNode | main.py:270 | `remove_node` drops the node and every edge touching it in either direction, and keeps every other node and edge; the remaining nodes' order is stated by `RemoveNodeKeepsOrder` |
| Graphs.WithoutKeepsOrder | main.py:270 | removing one name keeps every other name, in the same relative order |
| Graphs.RemoveNodeKeepsOrder | main.py:270 | after `remove_node`, the remaining nodes keep their insertion order |
| Graphs.SuccessorList | main.py:247 | the captured successor list has no repeats and holds exactly the successors |
| Graphs.PredecessorList | main.py:248 | the captured predecessor list has no repeats and holds exactly the predecessors |
| Graphs.OutPairs | main.py:253-254 | the pairs the first rename loop adds are `(new, v)` for each captured successor, in order |
| Graphs.InPairs | main.py:255-256 | the pairs the second rename loop adds are `(p, new)` for each captured predecessor, in order |
| Graphs.EdgeList | main.py:201 | `list(mindmap.edges)` lists exactly the edges of a well-formed graph, and each endpoint is a node |
| Graphs.EdgesOutNoDup | main.py:201 | the outgoing edges of distinct nodes are listed without repeats |
| Graphs.EdgeListNoDup | main.py:201 | `list(mindmap.edges)` of a well-formed graph lists each edge once |
| Graphs.Renamed | main.py:247-256 | the graph after rename's capture, remove, add and re-link; its own contract says only that the result is well formed and contains new; `RenamedEdges` and `RenamedNodes` characterise it |
| Graphs.RenamedEdges | main.py:247-256 | after a rename, the edges are those not touching old, plus `(new, v)` for each old successor, plus `(p, new)` for each old predecessor |
| Graphs.RenamedNodes | main.py:250-256 | after a rename, old is removed and new appended; with a self-loop, old is appended again after new |
| Graphs.RenameRelabels | main.py:247-256 | without a self-loop, rename is a relabelling: node list `Without(nodes, old) + [new]`, every edge kept with old replaced by new, graph still well formed |
| Graphs.RelabelKeepsTopology | main.py:247-256 | relabelling old to a fresh new without a self-loop moves old's successors and predecessors to new and keeps every edge not touching old |
| Graphs.RenameKeepsTopology | main.py:247-256 | without a self-loop, new has exactly old's successors and predecessors, old is gone, and every edge not touching the renamed topic is kept |
| Graphs.RenameSelfLoop | main.py:253-256 | with a self-loop, rename puts old back as a node and creates both `(new, old)` and `(old, new)` |
| Graphs.RenameKeepsAsymmetric | main.py:247-256 | without a self-loop, rename creates no pair of opposite edges |
| Graphs.AddEdgesFromOneNew | main.py:253-256 | re-adding edges whose only missing endpoint is one topic appends that topic once, at the end |
| Graphs.AddNodesFromStep | main.py:218 | one more `add_node` step of `add_nodes_from` |
| Graphs.AddEdgesFromStep | main.py:219 | one more `add_edge` step of `add_edges_from` |
| Graphs.AddNodesFromDistinct | main.py:218 | `add_nodes_from` with distinct new names appends them in their order |
| Topics.CategoryOrOther | main.py:56 | a given category is kept; an empty one becomes "Other" |
| Topics.AddCheck | main.py:43-53 | add's checks in order: Empty iff the name is empty; InvalidName iff it contains a space; Duplicate iff it is already a node; Ok otherwise |
| Topics.ConnectCheck | main.py:67-86 | connect's checks in order: missing input, parent missing, child missing, reverse edge (ReverseExists), same edge (AlreadyConnected), each stated as an iff |
| Topics.RenameCheck | main.py:231-245 | rename's checks in order: missing input, old absent, new already a node, space in new, each stated as an iff; Ok implies old differs from new |
| Topics.RenamedCategories | main.py:258 | new takes old's category, or "Other" when there was none; old is no longer a key; other entries are unchanged |
| Topics.RenamedNotes | main.py:259-260 | a note moves to new only when old had one; otherwise the map is unchanged; other entries are unchanged |
| Topics.AcceptedTopicIsClean | main.py:39-53 | an accepted topic is non-empty, has no surrounding whitespace and no space, and is new; Empty is reported exactly for all-whitespace input |
| Topics.AddTwiceIsDuplicate | main.py:51-55 | adding an accepted topic again reports Duplicate |
| Topics.ConnectAgain | main.py:79-88 | a repeated connect reports AlreadyConnected, or ReverseExists for a self-loop; the opposite connect reports ReverseExists |
| Topics.ConnectKeepsAsymmetric | main.py:79-88 | an accepted connect adds exactly one edge and no node, and never creates opposite edges |
| Topics.RenameKeepsConsistent | main.py:247-258 | without a self-loop, the category keys after rename are exactly the nodes again |
| Topics.RenameKeepsInvariant | main.py:247-260 | without a self-loop, rename keeps both invariants: category keys equal the nodes, and no opposite edges |
| Topics.RenameSelfLoopLosesConsistency | main.py:253-258 | when the renamed topic has a self-loop, the category keys after rename differ from the node set, because old is a node again but no longer a key |
| Codec.Encode | main.py:199-204 | the saved document has every field: the node list as it is, each edge listed, both maps as they are |
| Codec.Decode | main.py:217-222 | load gives a well-formed graph whose nodes are the listed nodes plus every edge endpoint and whose edges are the listed pairs; both maps are taken as they are; a missing field counts as empty, through `Codec.GetOr` (`data.get(key, default)`) |
| Codec.DecodeEncode | main.py:199-222 | loading a saved document gives back the same node list, edge set, category map and note map |
| Codec.DecodeKeepsNodeOrder | main.py:218 | a node list without repeats is loaded in its order, ahead of edge-only endpoints |
| Codec.DecodeMissingFields | main.py:218-222 | example: a document with no fields loads as the empty mind map |
| Palette.ColorOf | main.py:102 | the palette colour of the topic's category, where `CategoryOf` gives "Other" for a topic without a category (`topic_categories.get(n, "Other")`); "#D3D3D3" for an unknown category; always a palette colour |
| Palette.NodeColors | main.py:288-292 | one colour per node, in node order, each the node's category colour |
| Palette.SearchColors | main.py:306-321 | not found iff the stripped keyword is not a topic; otherwise exactly the searched node is gold and every other node has its category colour |
| MindMaps.MindMap.constructor | main.py:8-10 | the empty mind map, which satisfies both invariants |
| MindMaps.MindMap.AddNode | main.py:55 | the state's graph becomes `Graphs.AddNode` of the old graph; the maps are unchanged |
| MindMaps.MindMap.AddEdge | main.py:88 | the state's graph becomes `Graphs.AddEdge` of the old graph; the maps are unchanged |
| MindMaps.MindMap.RemoveNode | main.py:270 | for a present node, the state's graph becomes `Graphs.RemoveNode` of the old graph; the maps are unchanged |
| MindMaps.MindMap.AddNodesFrom | main.py:218 | the loop of `add_node` calls gives `Graphs.AddNodesFrom` of the old graph |
| MindMaps.MindMap.AddEdgesFrom | main.py:219 | the loop of `add_edge` calls gives `Graphs.AddEdgesFrom` of the old graph |
| MindMaps.MindMap.AddTopic | main.py:38-60 | outcome is `AddCheck` of the stripped name; on Ok exactly that node is appended and its category is set as given or "Other"; edges and notes are unchanged; a failure changes nothing; the invariants are kept |
| MindMaps.MindMap.Connect | main.py:63-89 | outcome is `ConnectCheck` of the stripped names; on Ok exactly the edge is added and nothing else changes; a failure changes nothing; the invariants are kept |
| MindMaps.MindMap.LinkFrom | main.py:253-254 | the first rename loop adds the captured out-edges of new, in order |
| MindMaps.MindMap.LinkTo | main.py:255-256 | the second rename loop adds the captured in-edges of new, in order |
| MindMaps.MindMap.RenameNode | main.py:247-256 | for a present old name, capture, remove, add and re-link give exactly `Graphs.Renamed` of the old graph |
| MindMaps.MindMap.MoveMetadata | main.py:258-260 | the category and note maps become the renamed ones; the graph is unchanged |
| MindMaps.MindMap.Rename | main.py:227-264 | outcome is `RenameCheck`; a failure changes nothing; on Ok, graph, categories and notes are the renamed ones; the invariants are kept when old had no self-loop |
| MindMaps.MindMap.RemoveTopic | main.py:183-187 | a present topic goes with its incident edges, its category and its note; an absent one gives NotFound and changes nothing |
| MindMaps.MindMap.Delete | main.py:267-278 | the same cascade for the stripped typed name; NotFound and no change when absent; the invariants are kept |
| MindMaps.MindMap.DeleteFromDialog | main.py:181-189 | Cancelled and no change unless confirmed; otherwise the delete cascade; the invariants are kept |
| MindMaps.MindMap.SaveNote | main.py:176-177 | the topic's note becomes the stripped text, whether or not the topic exists; nothing else changes |
| MindMaps.MindMap.Reset | main.py:358-362 | nodes, edges, categories and notes become empty |
| MindMaps.MindMap.Save | main.py:196-204 | the saved document is `Encode` of the state, and decoding it gives back the state |
| MindMaps.MindMap.Load | main.py:210-222 | the new state is exactly `Decode` of the document and is well formed |

## Left out

- Tk widget construction, entry reads and clears, message boxes and the main loop.
  Typed texts are parameters, and the message box is the returned `Outcome`.
- The contents of message texts. Only the kind of message is modelled.
- Layout, matplotlib drawing, the category legend (its sorted category list),
  the window titles and PNG export (main.py:92-113, 281-303, 323-355). Their only
  output is a picture. The colour lists they compute are modelled.
- Click hit-testing (main.py:116-149). It is floating-point distance arithmetic in
  an event callback.
- The topic dialog's widgets (main.py:152-193). Its two actions are modelled:
  save note and delete. The answer to the confirmation question is a parameter.
- File dialogs, a cancelled dialog, and the JSON text itself (main.py:197,
  205-207, 212-215). The document is a value.
- JSON of the wrong shape on load: non-string topics, non-pair edges, or a field of
  the wrong type. load_mindmap does not check these, and networkx would either
  raise or accept arbitrary hashable values. The model types every field.
- An exception in remove_node inside delete_from_dialog. It is modelled as a
  returned `NotFound(Target)` with the state unchanged.
- Graphs.EdgeList: lists edges grouped by source in node order, with targets in
  node order. networkx lists each source's targets in the order the edges were
  added. Load adds the endpoints that only edges mention in edge-list order, but in a
  saved document every edge endpoint is already a listed node. So only the set of
  edges matters, and the round trip is unaffected.
- Graphs.SuccessorList and Graphs.PredecessorList: list neighbours in node order,
  not in networkx's edge-insertion order. Rename re-adds them into a set of edges,
  which makes the order unobservable.
- The re-assignment of the three globals by load_mindmap (main.py:211) is modelled
  as an update of the one `MindMap` object's fields. No other reference to the old
  objects exists.
