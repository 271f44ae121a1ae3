/** The save/load document of the mind map (main.py:196-222): the JSON
    object with the fields "nodes", "edges", "categories" and "notes", as a
    value. Choosing the file and the JSON text itself are not modelled. */
module Codec {
  import opened Graphs
  import opened Options

  /** `data.get(key, default)`. */
  function GetOr<T>(o: Option<T>, default: T): T {
    match o
    case Some(v) => v
    case None => default
  }

  /** The parsed JSON object; a field is None when the key is absent. */
  datatype Document = Document(
    nodes: Option<seq<Topic>>,
    edges: Option<seq<Edge>>,
    categories: Option<map<Topic, string>>,
    notes: Option<map<Topic, string>>)

  /** The three parts of the mind map a load installs. */
  datatype Loaded = Loaded(graph: Graph, categories: map<Topic, string>, notes: map<Topic, string>)

  /** The `data` object save_mindmap writes (main.py:199-204): every field
      present, the node list as it is, the edges listed (each once, by
      `EdgeListNoDup`), both maps as they are. */
  function Encode(g: Graph, cats: map<Topic, string>, notes: map<Topic, string>): (d: Document)
    ensures d.nodes == Some(g.nodes) && d.categories == Some(cats) && d.notes == Some(notes)
    ensures d.edges.Some?
    ensures Wellformed(g) ==> forall e :: e in d.edges.value <==> e in g.edges
  {
    Document(Some(g.nodes), Some(EdgeList(g)), Some(cats), Some(notes))
  }

  /** What load_mindmap installs (main.py:217-222): a fresh graph built by
      `add_nodes_from` and then `add_edges_from`, so an edge endpoint missing
      from "nodes" becomes a node; the maps are taken as they are; a missing
      field counts as empty. Nothing else is validated. */
  function Decode(d: Document): (r: Loaded)
    ensures Wellformed(r.graph)
    ensures forall x :: x in r.graph.nodes <==>
      x in GetOr(d.nodes, []) || x in Endpoints(GetOr(d.edges, []))
    ensures forall e :: e in r.graph.edges <==> e in GetOr(d.edges, [])
    ensures r.categories == GetOr(d.categories, map[])
    ensures r.notes == GetOr(d.notes, map[])
  {
    var g := AddNodesFrom(Empty, GetOr(d.nodes, []));
    Loaded(AddEdgesFrom(g, GetOr(d.edges, [])), GetOr(d.categories, map[]), GetOr(d.notes, map[]))
  }

  /** Loading a saved document gives back the same node list, edge set,
      category map and note map. */
  lemma {:induction false} DecodeEncode(g: Graph, cats: map<Topic, string>, notes: map<Topic, string>)
    requires Wellformed(g)
    ensures Decode(Encode(g, cats, notes)) == Loaded(g, cats, notes)
  {
    var d := Encode(g, cats, notes);
    assert Empty.nodes + g.nodes == g.nodes;
    AddNodesFromDistinct(Empty, g.nodes);
    var h := AddNodesFrom(Empty, g.nodes);
    assert h == Graph(g.nodes, {});
    var r := AddEdgesFrom(h, EdgeList(g));
    assert r.nodes == g.nodes;
    assert r.edges == g.edges;
  }

  /** A node list without repeats is loaded in its order, ahead of any
      endpoint that only the edge list mentions. */
  lemma DecodeKeepsNodeOrder(d: Document)
    requires NoDup(GetOr(d.nodes, []))
    ensures GetOr(d.nodes, []) <= Decode(d).graph.nodes
  {
    var ns := GetOr(d.nodes, []);
    assert Empty.nodes + ns == ns;
    AddNodesFromDistinct(Empty, ns);
  }

  /** An example of the defaults `Decode` states for every document: one
      with none of the four fields loads as the empty mind map. */
  lemma DecodeMissingFields()
    ensures Decode(Document(None, None, None, None)) == Loaded(Empty, map[], map[])
  {
  }
}
