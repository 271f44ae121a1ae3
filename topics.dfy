/** The rules the mind map applies to topic names, connections and the
    per-topic metadata (category and note), separated from the widgets that
    read the entries and the message boxes that report the outcome. */
module Topics {
  import opened Strings
  import opened Graphs

  /** Which entry a "not found" message is about. */
  datatype Role = Parent | Child | OldName | Target

  /** The message box each operation ends with. */
  datatype Outcome =
    | Ok                  // the change was made
    | Empty               // "Topic cannot be empty."
    | MissingInput        // both names are required (connect, rename)
    | InvalidName         // the name contains a space
    | Duplicate           // the topic already exists
    | NotFound(role: Role)
    | ReverseExists       // the child is already connected to the parent
    | AlreadyConnected    // informational: the edge is already there
    | Cancelled           // the delete confirmation was declined

  /** The category recorded when none is given. */
  const Other: string := "Other"

  /** `category if category else "Other"` (main.py:56). */
  function CategoryOrOther(c: string): (r: string)
    ensures r != []
    ensures c != [] ==> r == c
    ensures c == [] ==> r == Other
  {
    if c != [] then c else Other
  }

  /** The checks of add_topic on the stripped name, in their order
      (main.py:43-53). */
  function AddCheck(nodes: seq<Topic>, t: Topic): (r: Outcome)
    ensures r in {Ok, Empty, InvalidName, Duplicate}
    ensures r == Empty <==> t == []
    ensures r == InvalidName <==> t != [] && ' ' in t
    ensures r == Duplicate <==> t != [] && ' ' !in t && t in nodes
    ensures r == Ok <==> t != [] && ' ' !in t && t !in nodes
  {
    if t == [] then Empty
    else if ' ' in t then InvalidName
    else if t in nodes then Duplicate
    else Ok
  }

  /** The checks of connect_topics on the stripped names, in their order
      (main.py:67-86). */
  function ConnectCheck(g: Graph, p: Topic, c: Topic): (r: Outcome)
    ensures r in {Ok, MissingInput, NotFound(Parent), NotFound(Child), ReverseExists, AlreadyConnected}
    ensures r == MissingInput <==> p == [] || c == []
    ensures r == NotFound(Parent) <==> p != [] && c != [] && p !in g.nodes
    ensures r == NotFound(Child) <==> p != [] && c != [] && p in g.nodes && c !in g.nodes
    ensures r == ReverseExists <==>
      p != [] && c != [] && p in g.nodes && c in g.nodes && (c, p) in g.edges
    ensures r == AlreadyConnected <==>
      p != [] && c != [] && p in g.nodes && c in g.nodes && (c, p) !in g.edges && (p, c) in g.edges
    ensures r == Ok <==>
      p != [] && c != [] && p in g.nodes && c in g.nodes && (c, p) !in g.edges && (p, c) !in g.edges
  {
    if p == [] || c == [] then MissingInput
    else if p !in g.nodes then NotFound(Parent)
    else if c !in g.nodes then NotFound(Child)
    else if (c, p) in g.edges then ReverseExists
    else if (p, c) in g.edges then AlreadyConnected
    else Ok
  }

  /** The checks of rename_topic on the stripped names, in their order
      (main.py:231-245). */
  function RenameCheck(nodes: seq<Topic>, o: Topic, n: Topic): (r: Outcome)
    ensures r in {Ok, MissingInput, NotFound(OldName), Duplicate, InvalidName}
    ensures r == MissingInput <==> o == [] || n == []
    ensures r == NotFound(OldName) <==> o != [] && n != [] && o !in nodes
    ensures r == Duplicate <==> o != [] && n != [] && o in nodes && n in nodes
    ensures r == InvalidName <==> o != [] && n != [] && o in nodes && n !in nodes && ' ' in n
    ensures r == Ok <==> o != [] && n != [] && o in nodes && n !in nodes && ' ' !in n
    ensures r == Ok ==> o != n
  {
    if o == [] || n == [] then MissingInput
    else if o !in nodes then NotFound(OldName)
    else if n in nodes then Duplicate
    else if ' ' in n then InvalidName
    else Ok
  }

  /** The category map after a rename (main.py:258): the new name takes the
      old name's category, or "Other" when it had none, and the old key goes. */
  function RenamedCategories(cats: map<Topic, string>, o: Topic, n: Topic): (r: map<Topic, string>)
    requires o != n
    ensures r.Keys == cats.Keys - {o} + {n}
    ensures r[n] == if o in cats then cats[o] else Other
    ensures forall k :: k in r && k != n ==> r[k] == cats[k]
  {
    (cats - {o})[n := if o in cats then cats[o] else Other]
  }

  /** The note map after a rename (main.py:259-260): a note moves to the new
      name only when the old name had one; otherwise nothing changes. */
  function RenamedNotes(notes: map<Topic, string>, o: Topic, n: Topic): (r: map<Topic, string>)
    requires o != n
    ensures o in notes ==> r.Keys == notes.Keys - {o} + {n} && r[n] == notes[o]
    ensures o !in notes ==> r == notes
    ensures forall k :: k in r && k != n ==> k in notes && r[k] == notes[k]
  {
    if o in notes then (notes - {o})[n := notes[o]] else notes
  }

  /** The category keys are exactly the topics of the graph. */
  predicate Consistent(g: Graph, cats: map<Topic, string>) {
    cats.Keys == Members(g.nodes)
  }

  /** A topic that add_topic accepts is non-empty, has no surrounding
      whitespace, no space character and is new; the call reports Empty
      exactly when the typed text was all whitespace. */
  lemma AcceptedTopicIsClean(nodes: seq<Topic>, typed: string)
    ensures AddCheck(nodes, Strip(typed)) == Empty <==> AllSpace(typed)
    ensures AddCheck(nodes, Strip(typed)) == Ok ==>
      var t := Strip(typed);
      && t != [] && !IsSpace(t[0]) && !IsSpace(t[|t| - 1])
      && ' ' !in t && t !in nodes
  {
    StripEmptyIff(typed);
  }

  /** Adding the same topic twice: the second call is rejected as a duplicate. */
  lemma AddTwiceIsDuplicate(g: Graph, t: Topic)
    requires AddCheck(g.nodes, t) == Ok
    ensures AddCheck(AddNode(g, t).nodes, t) == Duplicate
  {
  }

  /** Connecting again after a successful connect: the same pair is reported
      as already connected, the opposite pair as a reverse edge; for a
      self-loop the reverse check comes first, so the repeat reports
      ReverseExists. */
  lemma ConnectAgain(g: Graph, p: Topic, c: Topic)
    requires ConnectCheck(g, p, c) == Ok
    ensures ConnectCheck(AddEdge(g, p, c), p, c) == if p == c then ReverseExists else AlreadyConnected
    ensures ConnectCheck(AddEdge(g, p, c), c, p) == ReverseExists
  {
  }

  /** A successful connect adds exactly one edge and no node, and never
      creates two opposite edges. */
  lemma ConnectKeepsAsymmetric(g: Graph, p: Topic, c: Topic)
    requires ConnectCheck(g, p, c) == Ok
    ensures AddEdge(g, p, c) == Graph(g.nodes, g.edges + {(p, c)})
    ensures Asymmetric(g) ==> Asymmetric(AddEdge(g, p, c))
  {
  }

  /** After a rename of a topic without a self-loop, the category keys are
      again exactly the topics. */
  lemma RenameKeepsConsistent(g: Graph, cats: map<Topic, string>, o: Topic, n: Topic)
    requires Wellformed(g) && Consistent(g, cats)
    requires RenameCheck(g.nodes, o, n) == Ok && (o, o) !in g.edges
    ensures Consistent(Renamed(g, o, n), RenamedCategories(cats, o, n))
  {
    RenameRelabels(g, o, n);
    var ns := Renamed(g, o, n).nodes;
    assert ns == Without(g.nodes, o) + [n];
    assert forall y :: y in ns <==> (y in g.nodes && y != o) || y == n;
  }

  /** Both invariants survive a rename of a topic without a self-loop. */
  lemma RenameKeepsInvariant(g: Graph, cats: map<Topic, string>, o: Topic, n: Topic)
    requires Wellformed(g) && Consistent(g, cats) && Asymmetric(g)
    requires RenameCheck(g.nodes, o, n) == Ok && (o, o) !in g.edges
    ensures Consistent(Renamed(g, o, n), RenamedCategories(cats, o, n))
    ensures Asymmetric(Renamed(g, o, n))
  {
    RenameKeepsConsistent(g, cats, o, n);
    RenameKeepsAsymmetric(g, o, n);
  }

  /** With a self-loop on the renamed topic, the old name comes back as a
      node with no category, so the category keys no longer match. */
  lemma RenameSelfLoopLosesConsistency(g: Graph, cats: map<Topic, string>, o: Topic, n: Topic)
    requires Wellformed(g) && Consistent(g, cats)
    requires RenameCheck(g.nodes, o, n) == Ok && (o, o) in g.edges
    ensures !Consistent(Renamed(g, o, n), RenamedCategories(cats, o, n))
  {
    RenameSelfLoop(g, o, n);
    assert o !in RenamedCategories(cats, o, n).Keys;
    assert o in Members(Renamed(g, o, n).nodes);
  }
}
