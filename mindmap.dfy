/** The mind map itself: the graph `mindmap`, the map `topic_categories`
    and the map `notes` (main.py:8-10), one mutable aggregate, with one
    method per button handler. Entry texts are parameters, and the message
    box a handler ends with is the returned Outcome. */
module MindMaps {
  import opened Strings
  import opened Graphs
  import opened Topics
  import Codec

  class MindMap {
    var nodes: seq<Topic>
    var edges: set<Edge>
    var categories: map<Topic, string>
    var notes: map<Topic, string>

    /** The graph part as a value. */
    function AsGraph(): Graph
      reads this
    {
      Graph(nodes, edges)
    }

    /** What networkx keeps true of every graph. */
    predicate Valid()
      reads this
    {
      Wellformed(AsGraph())
    }

    /** What add, connect, delete and reset keep from an empty start: the
        category keys are exactly the topics, and no two topics are joined
        in both directions. */
    predicate Invariant()
      reads this
    {
      Consistent(AsGraph(), categories) && Asymmetric(AsGraph())
    }

    /** The state when the program starts (main.py:8-10). */
    constructor ()
      ensures Valid() && Invariant()
      ensures nodes == [] && edges == {} && categories == map[] && notes == map[]
    {
      nodes, edges, categories, notes := [], {}, map[], map[];
    }

    /** `mindmap.add_node(x)`. */
    method AddNode(x: Topic)
      requires Valid()
      modifies this
      ensures Valid()
      ensures AsGraph() == Graphs.AddNode(old(AsGraph()), x)
      ensures categories == old(categories) && notes == old(notes)
    {
      if x !in nodes {
        nodes := nodes + [x];
      }
    }

    /** `mindmap.add_edge(u, v)`. */
    method AddEdge(u: Topic, v: Topic)
      requires Valid()
      modifies this
      ensures Valid()
      ensures AsGraph() == Graphs.AddEdge(old(AsGraph()), u, v)
      ensures categories == old(categories) && notes == old(notes)
    {
      AddNode(u);
      AddNode(v);
      edges := edges + {(u, v)};
    }

    /** `mindmap.remove_node(x)` for a present `x`. */
    method RemoveNode(x: Topic)
      requires Valid() && x in nodes
      modifies this
      ensures Valid()
      ensures AsGraph() == Graphs.RemoveNode(old(AsGraph()), x)
      ensures categories == old(categories) && notes == old(notes)
    {
      nodes := Without(nodes, x);
      edges := set e | e in edges && e.0 != x && e.1 != x;
    }

    /** `mindmap.add_nodes_from(xs)`. */
    method AddNodesFrom(xs: seq<Topic>)
      requires Valid()
      modifies this
      ensures Valid()
      ensures AsGraph() == Graphs.AddNodesFrom(old(AsGraph()), xs)
      ensures categories == old(categories) && notes == old(notes)
    {
      var i := 0;
      while i < |xs|
        invariant 0 <= i <= |xs|
        invariant Valid()
        invariant AsGraph() == Graphs.AddNodesFrom(old(AsGraph()), xs[..i])
        invariant categories == old(categories) && notes == old(notes)
      {
        AddNodesFromStep(old(AsGraph()), xs, i);
        AddNode(xs[i]);
        i := i + 1;
      }
      assert xs[..|xs|] == xs;
    }

    /** `mindmap.add_edges_from(ps)`. */
    method AddEdgesFrom(ps: seq<Edge>)
      requires Valid()
      modifies this
      ensures Valid()
      ensures AsGraph() == Graphs.AddEdgesFrom(old(AsGraph()), ps)
      ensures categories == old(categories) && notes == old(notes)
    {
      var i := 0;
      while i < |ps|
        invariant 0 <= i <= |ps|
        invariant Valid()
        invariant AsGraph() == Graphs.AddEdgesFrom(old(AsGraph()), ps[..i])
        invariant categories == old(categories) && notes == old(notes)
      {
        AddEdgesFromStep(old(AsGraph()), ps, i);
        AddEdge(ps[i].0, ps[i].1);
        i := i + 1;
      }
      assert ps[..|ps|] == ps;
    }

    /** add_topic (main.py:38-60). */
    method AddTopic(typed: string, category: string) returns (r: Outcome)
      requires Valid()
      modifies this
      ensures Valid()
      ensures r == AddCheck(old(nodes), Strip(typed))
      ensures r == Ok ==>
        && nodes == old(nodes) + [Strip(typed)]
        && edges == old(edges)
        && categories == old(categories)[Strip(typed) := CategoryOrOther(category)]
        && notes == old(notes)
      ensures r != Ok ==> unchanged(this)
      ensures old(Invariant()) ==> Invariant()
    {
      var t := Strip(typed);
      r := AddCheck(nodes, t);
      if r == Ok {
        AddNode(t);
        categories := categories[t := CategoryOrOther(category)];
        assert Members(nodes) == Members(old(nodes)) + {t};
      }
    }

    /** connect_topics (main.py:63-89). */
    method Connect(parentTyped: string, childTyped: string) returns (r: Outcome)
      requires Valid()
      modifies this
      ensures Valid()
      ensures r == ConnectCheck(old(AsGraph()), Strip(parentTyped), Strip(childTyped))
      ensures r == Ok ==> nodes == old(nodes) && edges == old(edges) + {(Strip(parentTyped), Strip(childTyped))}
      ensures r != Ok ==> unchanged(this)
      ensures categories == old(categories) && notes == old(notes)
      ensures old(Invariant()) ==> Invariant()
    {
      var p := Strip(parentTyped);
      var c := Strip(childTyped);
      r := ConnectCheck(AsGraph(), p, c);
      if r == Ok {
        ConnectKeepsAsymmetric(AsGraph(), p, c);
        AddEdge(p, c);
      }
    }

    /** The first loop of rename_topic (main.py:253-254): an edge from `n`
        to each captured successor, in order. */
    method LinkFrom(n: Topic, vs: seq<Topic>)
      requires Valid()
      modifies this
      ensures Valid()
      ensures AsGraph() == Graphs.AddEdgesFrom(old(AsGraph()), OutPairs(n, vs))
      ensures categories == old(categories) && notes == old(notes)
    {
      ghost var ps := OutPairs(n, vs);
      var i := 0;
      while i < |vs|
        invariant 0 <= i <= |vs|
        invariant Valid()
        invariant AsGraph() == Graphs.AddEdgesFrom(old(AsGraph()), ps[..i])
        invariant categories == old(categories) && notes == old(notes)
      {
        AddEdgesFromStep(old(AsGraph()), ps, i);
        AddEdge(n, vs[i]);
        i := i + 1;
      }
      assert ps[..|vs|] == ps;
    }

    /** The second loop of rename_topic (main.py:255-256): an edge from each
        captured predecessor to `n`, in order. */
    method LinkTo(us: seq<Topic>, n: Topic)
      requires Valid()
      modifies this
      ensures Valid()
      ensures AsGraph() == Graphs.AddEdgesFrom(old(AsGraph()), InPairs(us, n))
      ensures categories == old(categories) && notes == old(notes)
    {
      ghost var ps := InPairs(us, n);
      var j := 0;
      while j < |us|
        invariant 0 <= j <= |us|
        invariant Valid()
        invariant AsGraph() == Graphs.AddEdgesFrom(old(AsGraph()), ps[..j])
        invariant categories == old(categories) && notes == old(notes)
      {
        AddEdgesFromStep(old(AsGraph()), ps, j);
        AddEdge(us[j], n);
        j := j + 1;
      }
      assert ps[..|us|] == ps;
    }

    /** The graph part of rename_topic (main.py:247-256): capture the
        successor and predecessor lists of `o`, remove `o`, add `n`, and
        re-add the captured edges with `n` in place of `o`. */
    method RenameNode(o: Topic, n: Topic)
      requires Valid() && o in nodes
      modifies this
      ensures Valid()
      ensures AsGraph() == Renamed(old(AsGraph()), o, n)
      ensures categories == old(categories) && notes == old(notes)
    {
      var neighbors := SuccessorList(AsGraph(), o);
      var predecessors := PredecessorList(AsGraph(), o);
      RemoveNode(o);
      AddNode(n);
      LinkFrom(n, neighbors);
      LinkTo(predecessors, n);
    }

    /** The metadata part of rename_topic (main.py:258-260): the category
        moves from `o` to `n` ("Other" when `o` had none), and the note moves
        only when `o` had one. */
    method MoveMetadata(o: Topic, n: Topic)
      requires o != n
      modifies this
      ensures nodes == old(nodes) && edges == old(edges)
      ensures categories == RenamedCategories(old(categories), o, n)
      ensures notes == RenamedNotes(old(notes), o, n)
    {
      var category := if o in categories then categories[o] else Other;
      categories := (categories - {o})[n := category];
      if o in notes {
        var note := notes[o];
        notes := (notes - {o})[n := note];
      }
    }

    /** rename_topic (main.py:227-264): capture the successor and predecessor
        lists, remove the old node, add the new one, re-add the captured
        edges one by one, then move the category and the note. */
    method Rename(oldTyped: string, newTyped: string) returns (r: Outcome)
      requires Valid()
      modifies this
      ensures Valid()
      ensures r == RenameCheck(old(nodes), Strip(oldTyped), Strip(newTyped))
      ensures r != Ok ==> unchanged(this)
      ensures r == Ok ==>
        && AsGraph() == Renamed(old(AsGraph()), Strip(oldTyped), Strip(newTyped))
        && categories == RenamedCategories(old(categories), Strip(oldTyped), Strip(newTyped))
        && notes == RenamedNotes(old(notes), Strip(oldTyped), Strip(newTyped))
      ensures old(Invariant()) && (Strip(oldTyped), Strip(oldTyped)) !in old(edges) ==> Invariant()
    {
      var o := Strip(oldTyped);
      var n := Strip(newTyped);
      r := RenameCheck(nodes, o, n);
      if r != Ok {
        return;
      }
      ghost var g0 := AsGraph();
      ghost var c0 := categories;
      RenameNode(o, n);
      MoveMetadata(o, n);
      if Consistent(g0, c0) && Asymmetric(g0) && (o, o) !in g0.edges {
        RenameKeepsInvariant(g0, c0, o, n);
      }
    }

    /** The cascade both delete paths share (main.py:183-187, 270-274): the
        node with every edge touching it, then its category and its note. */
    method RemoveTopic(t: Topic) returns (r: Outcome)
      requires Valid()
      modifies this
      ensures Valid()
      ensures r == if t in old(nodes) then Ok else NotFound(Target)
      ensures r == Ok ==>
        && AsGraph() == Graphs.RemoveNode(old(AsGraph()), t)
        && categories == old(categories) - {t}
        && notes == old(notes) - {t}
      ensures r != Ok ==> unchanged(this)
      ensures old(Invariant()) ==> Invariant()
    {
      if t !in nodes {
        return NotFound(Target);
      }
      RemoveNode(t);
      if t in categories {
        categories := categories - {t};
      }
      if t in notes {
        notes := notes - {t};
      }
      r := Ok;
    }

    /** delete_topic (main.py:267-278): the typed name is stripped first. */
    method Delete(typed: string) returns (r: Outcome)
      requires Valid()
      modifies this
      ensures Valid()
      ensures r == if Strip(typed) in old(nodes) then Ok else NotFound(Target)
      ensures r == Ok ==>
        && AsGraph() == Graphs.RemoveNode(old(AsGraph()), Strip(typed))
        && categories == old(categories) - {Strip(typed)}
        && notes == old(notes) - {Strip(typed)}
      ensures r != Ok ==> unchanged(this)
      ensures old(Invariant()) ==> Invariant()
    {
      r := RemoveTopic(Strip(typed));
    }

    /** delete_from_dialog (main.py:181-189): nothing happens unless the
        confirmation is accepted; a topic that is no longer there makes
        `remove_node` raise before anything changes. */
    method DeleteFromDialog(topic: Topic, confirmed: bool) returns (r: Outcome)
      requires Valid()
      modifies this
      ensures Valid()
      ensures r == if !confirmed then Cancelled else if topic in old(nodes) then Ok else NotFound(Target)
      ensures r == Ok ==>
        && AsGraph() == Graphs.RemoveNode(old(AsGraph()), topic)
        && categories == old(categories) - {topic}
        && notes == old(notes) - {topic}
      ensures r != Ok ==> unchanged(this)
      ensures old(Invariant()) ==> Invariant()
    {
      if !confirmed {
        return Cancelled;
      }
      r := RemoveTopic(topic);
    }

    /** save_note (main.py:176-179): the note of the dialog's topic becomes
        the stripped text, whether or not the topic still exists. */
    method SaveNote(topic: Topic, text: string)
      requires Valid()
      modifies this
      ensures Valid()
      ensures notes == old(notes)[topic := Strip(text)]
      ensures nodes == old(nodes) && edges == old(edges) && categories == old(categories)
      ensures old(Invariant()) ==> Invariant()
    {
      notes := notes[topic := Strip(text)];
    }

    /** reset_mindmap (main.py:358-363). */
    method Reset()
      modifies this
      ensures Valid() && Invariant()
      ensures nodes == [] && edges == {} && categories == map[] && notes == map[]
    {
      nodes, edges := [], {};
      categories := map[];
      notes := map[];
    }

    /** The document save_mindmap writes (main.py:199-204); loading it gives
        back this very state. */
    method Save() returns (d: Codec.Document)
      requires Valid()
      ensures d == Codec.Encode(AsGraph(), categories, notes)
      ensures Codec.Decode(d) == Codec.Loaded(AsGraph(), categories, notes)
    {
      d := Codec.Encode(AsGraph(), categories, notes);
      Codec.DecodeEncode(AsGraph(), categories, notes);
    }

    /** load_mindmap (main.py:217-222): a fresh graph filled by
        `add_nodes_from` and `add_edges_from`, and the two maps of the
        document, with empty defaults for missing fields. */
    method Load(d: Codec.Document)
      modifies this
      ensures Valid()
      ensures Codec.Decode(d) == Codec.Loaded(AsGraph(), categories, notes)
    {
      nodes, edges := [], {};
      AddNodesFrom(Codec.GetOr(d.nodes, []));
      AddEdgesFrom(Codec.GetOr(d.edges, []));
      categories := Codec.GetOr(d.categories, map[]);
      notes := Codec.GetOr(d.notes, map[]);
    }
  }
}
