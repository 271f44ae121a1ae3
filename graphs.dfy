/** The directed graph of topics, as the networkx `DiGraph` held in
    `mindmap` behaves for the calls the mind map makes: nodes kept in
    insertion order, at most one edge per ordered pair, and an edge whose
    endpoint is missing adds that endpoint. */
module Graphs {

  type Topic = string
  type Edge = (Topic, Topic)

  /** A value of the graph: its node list and its edge set. */
  datatype Graph = Graph(nodes: seq<Topic>, edges: set<Edge>)

  /** `nx.DiGraph()` and `mindmap.clear()`. */
  const Empty: Graph := Graph([], {})

  predicate NoDup<T(==)>(s: seq<T>) {
    forall i, j :: 0 <= i < j < |s| ==> s[i] != s[j]
  }

  function Members(s: seq<Topic>): set<Topic> {
    set x | x in s
  }

  /** What networkx guarantees of every graph: each node occurs once and both
      endpoints of every edge are nodes. */
  predicate Wellformed(g: Graph) {
    && NoDup(g.nodes)
    && forall e :: e in g.edges ==> e.0 in g.nodes && e.1 in g.nodes
  }

  /** No two distinct topics are joined in both directions. */
  predicate Asymmetric(g: Graph) {
    forall e :: e in g.edges && e.0 != e.1 ==> (e.1, e.0) !in g.edges
  }

  /** Both endpoints of every pair in `ps`. */
  function Endpoints(ps: seq<Edge>): set<Topic> {
    (set e | e in ps :: e.0) + (set e | e in ps :: e.1)
  }

  /** `mindmap.successors(x)` and `mindmap.predecessors(x)` as sets: the
      targets of the edges that start at `x`, and the sources of those that
      end at `x`. */
  function Successors(es: set<Edge>, x: Topic): set<Topic> {
    set e | e in es && e.0 == x :: e.1
  }

  function Predecessors(es: set<Edge>, x: Topic): set<Topic> {
    set e | e in es && e.1 == x :: e.0
  }

  /** `mindmap.add_node(x)`: a node already present stays where it is,
      a new one goes to the end. */
  function AddNode(g: Graph, x: Topic): (r: Graph)
    ensures r.edges == g.edges
    ensures x in r.nodes
    ensures forall y :: y in r.nodes <==> y in g.nodes || y == x
    ensures x in g.nodes ==> r == g
    ensures x !in g.nodes ==> r.nodes == g.nodes + [x]
    ensures Wellformed(g) ==> Wellformed(r)
  {
    if x in g.nodes then g else Graph(g.nodes + [x], g.edges)
  }

  /** `mindmap.add_edge(u, v)`: adds `u`, then `v`, when missing, and the edge. */
  function AddEdge(g: Graph, u: Topic, v: Topic): (r: Graph)
    ensures r.edges == g.edges + {(u, v)}
    ensures g.nodes <= r.nodes
    ensures forall y :: y in r.nodes <==> y in g.nodes || y == u || y == v
    ensures u in g.nodes && v in g.nodes ==> r.nodes == g.nodes
    ensures r.nodes == g.nodes + (if u in g.nodes then [] else [u])
      + (if v in g.nodes || v == u then [] else [v])
    ensures Wellformed(g) ==> Wellformed(r)
  {
    var h := AddNode(AddNode(g, u), v);
    Graph(h.nodes, h.edges + {(u, v)})
  }

  /** `mindmap.add_nodes_from(xs)`: `add_node` for each element in turn. */
  function AddNodesFrom(g: Graph, xs: seq<Topic>): (r: Graph)
    ensures r.edges == g.edges
    ensures g.nodes <= r.nodes
    ensures forall y :: y in r.nodes <==> y in g.nodes || y in xs
    ensures Wellformed(g) ==> Wellformed(r)
    decreases |xs|
  {
    if xs == [] then g
    else
      var front := xs[..|xs| - 1];
      assert xs == front + [xs[|xs| - 1]];
      AddNode(AddNodesFrom(g, front), xs[|xs| - 1])
  }

  /** `mindmap.add_edges_from(ps)`: `add_edge` for each pair in turn. */
  function AddEdgesFrom(g: Graph, ps: seq<Edge>): (r: Graph)
    ensures forall e :: e in r.edges <==> e in g.edges || e in ps
    ensures g.nodes <= r.nodes
    ensures forall y :: y in r.nodes <==> y in g.nodes || y in Endpoints(ps)
    ensures (forall y :: y in Endpoints(ps) ==> y in g.nodes) ==> r.nodes == g.nodes
    ensures Wellformed(g) ==> Wellformed(r)
    decreases |ps|
  {
    if ps == [] then g
    else
      var front := ps[..|ps| - 1];
      var last := ps[|ps| - 1];
      assert ps == front + [last];
      assert Endpoints(ps) == Endpoints(front) + {last.0, last.1};
      AddEdge(AddEdgesFrom(g, front), last.0, last.1)
  }

  /** One more step of `add_nodes_from`: the fold over the first `i + 1`
      names is `add_node` of name `i` after the fold over the first `i`. */
  lemma AddNodesFromStep(g: Graph, xs: seq<Topic>, i: nat)
    requires i < |xs|
    ensures AddNodesFrom(g, xs[..i + 1]) == AddNode(AddNodesFrom(g, xs[..i]), xs[i])
  {
    assert xs[..i + 1][..i] == xs[..i];
  }

  /** One more step of `add_edges_from`: the fold over the first `i + 1`
      pairs is `add_edge` of pair `i` after the fold over the first `i`. */
  lemma AddEdgesFromStep(g: Graph, ps: seq<Edge>, i: nat)
    requires i < |ps|
    ensures AddEdgesFrom(g, ps[..i + 1]) == AddEdge(AddEdgesFrom(g, ps[..i]), ps[i].0, ps[i].1)
  {
    assert ps[..i + 1][..i] == ps[..i];
  }

  /** `ns` without `x`, other elements in their order. */
  function Without(ns: seq<Topic>, x: Topic): (r: seq<Topic>)
    ensures forall y :: y in r <==> y in ns && y != x
    ensures NoDup(ns) ==> NoDup(r)
    ensures x !in ns ==> r == ns
  {
    if ns == [] then []
    else if ns[0] == x then Without(ns[1..], x)
    else
      var rest := Without(ns[1..], x);
      assert NoDup(ns) ==> ns[0] !in ns[1..];
      [ns[0]] + rest
  }

  /** `mindmap.remove_node(x)`: the node and every edge touching it go. */
  function RemoveNode(g: Graph, x: Topic): (r: Graph)
    ensures x !in r.nodes
    ensures forall y :: y in r.nodes <==> y in g.nodes && y != x
    ensures forall e :: e in r.edges <==> e in g.edges && e.0 != x && e.1 != x
    ensures Wellformed(g) ==> Wellformed(r)
  {
    Graph(Without(g.nodes, x), set e | e in g.edges && e.0 != x && e.1 != x)
  }

  /** `Without` keeps the other elements in their order: two of them at
      positions `i < j` of `ns` appear at positions `a < b` of the result. */
  lemma {:induction false} WithoutKeepsOrder(ns: seq<Topic>, x: Topic, i: nat, j: nat)
    requires i < j < |ns| && ns[i] != x && ns[j] != x
    ensures exists a, b ::
      && 0 <= a < b < |Without(ns, x)|
      && Without(ns, x)[a] == ns[i] && Without(ns, x)[b] == ns[j]
  {
    var rest := Without(ns[1..], x);
    if i == 0 {
      assert ns[j] == ns[1..][j - 1];
      assert ns[j] in rest;
      var b' :| 0 <= b' < |rest| && rest[b'] == ns[j];
      assert Without(ns, x) == [ns[0]] + rest;
      assert Without(ns, x)[0] == ns[i] && Without(ns, x)[b' + 1] == ns[j];
    } else {
      WithoutKeepsOrder(ns[1..], x, i - 1, j - 1);
      var a', b' :| 0 <= a' < b' < |rest| && rest[a'] == ns[1..][i - 1] && rest[b'] == ns[1..][j - 1];
      if ns[0] == x {
        assert Without(ns, x) == rest;
        assert rest[a'] == ns[i] && rest[b'] == ns[j];
      } else {
        assert Without(ns, x) == [ns[0]] + rest;
        assert Without(ns, x)[a' + 1] == ns[i] && Without(ns, x)[b' + 1] == ns[j];
      }
    }
  }

  /** `remove_node` keeps the remaining nodes in their insertion order. */
  lemma RemoveNodeKeepsOrder(g: Graph, x: Topic, i: nat, j: nat)
    requires i < j < |g.nodes| && g.nodes[i] != x && g.nodes[j] != x
    ensures exists a, b ::
      && 0 <= a < b < |RemoveNode(g, x).nodes|
      && RemoveNode(g, x).nodes[a] == g.nodes[i] && RemoveNode(g, x).nodes[b] == g.nodes[j]
  {
    WithoutKeepsOrder(g.nodes, x, i, j);
    assert RemoveNode(g, x).nodes == Without(g.nodes, x);
  }

  /** The elements `v` of `ns`, in order, with `(x, v)` in `es`. */
  function Targets(ns: seq<Topic>, es: set<Edge>, x: Topic): (r: seq<Topic>)
    ensures forall v :: v in r <==> v in ns && (x, v) in es
    ensures NoDup(ns) ==> NoDup(r)
  {
    if ns == [] then []
    else if (x, ns[0]) in es then [ns[0]] + Targets(ns[1..], es, x)
    else Targets(ns[1..], es, x)
  }

  /** The elements `v` of `ns`, in order, with `(v, x)` in `es`. */
  function Sources(ns: seq<Topic>, es: set<Edge>, x: Topic): (r: seq<Topic>)
    ensures forall v :: v in r <==> v in ns && (v, x) in es
    ensures NoDup(ns) ==> NoDup(r)
  {
    if ns == [] then []
    else if (ns[0], x) in es then [ns[0]] + Sources(ns[1..], es, x)
    else Sources(ns[1..], es, x)
  }

  /** `list(mindmap.successors(x))`, listed in node order. */
  function SuccessorList(g: Graph, x: Topic): (r: seq<Topic>)
    requires Wellformed(g)
    ensures NoDup(r)
    ensures Members(r) == Successors(g.edges, x)
  {
    var r := Targets(g.nodes, g.edges, x);
    assert forall v :: v in r <==> (x, v) in g.edges;
    r
  }

  /** `list(mindmap.predecessors(x))`, listed in node order. */
  function PredecessorList(g: Graph, x: Topic): (r: seq<Topic>)
    requires Wellformed(g)
    ensures NoDup(r)
    ensures Members(r) == Predecessors(g.edges, x)
  {
    var r := Sources(g.nodes, g.edges, x);
    assert forall v :: v in r <==> (v, x) in g.edges;
    r
  }

  /** The pairs `(x, v)` for the `v` in `vs`, in order. */
  function OutPairs(x: Topic, vs: seq<Topic>): (ps: seq<Edge>)
    ensures |ps| == |vs|
    ensures forall i :: 0 <= i < |vs| ==> ps[i] == (x, vs[i])
    ensures forall e :: e in ps <==> e.0 == x && e.1 in vs
    ensures forall y :: y in Endpoints(ps) <==> (y == x && vs != []) || y in vs
  {
    var ps := seq(|vs|, i requires 0 <= i < |vs| => (x, vs[i]));
    assert forall e: Edge :: e.0 == x && e.1 in vs ==> e in ps by {
      forall e: Edge | e.0 == x && e.1 in vs ensures e in ps {
        var i :| 0 <= i < |vs| && vs[i] == e.1;
        assert ps[i] == e;
      }
    }
    forall y ensures y in Endpoints(ps) <==> (y == x && vs != []) || y in vs {
      if y in vs {
        var i :| 0 <= i < |vs| && vs[i] == y;
        assert ps[i] in ps;
      }
      if vs != [] {
        assert ps[0] in ps;
      }
    }
    ps
  }

  /** The pairs `(v, x)` for the `v` in `vs`, in order. */
  function InPairs(vs: seq<Topic>, x: Topic): (ps: seq<Edge>)
    ensures |ps| == |vs|
    ensures forall i :: 0 <= i < |vs| ==> ps[i] == (vs[i], x)
    ensures forall e :: e in ps <==> e.0 in vs && e.1 == x
    ensures forall y :: y in Endpoints(ps) <==> (y == x && vs != []) || y in vs
  {
    var ps := seq(|vs|, i requires 0 <= i < |vs| => (vs[i], x));
    assert forall e: Edge :: e.0 in vs && e.1 == x ==> e in ps by {
      forall e: Edge | e.0 in vs && e.1 == x ensures e in ps {
        var i :| 0 <= i < |vs| && vs[i] == e.0;
        assert ps[i] == e;
      }
    }
    forall y ensures y in Endpoints(ps) <==> (y == x && vs != []) || y in vs {
      if y in vs {
        var i :| 0 <= i < |vs| && vs[i] == y;
        assert ps[i] in ps;
      }
      if vs != [] {
        assert ps[0] in ps;
      }
    }
    ps
  }

  /** `list(mindmap.edges)`: for each node of `ns` in order, its outgoing
      edges, targets in node order. */
  function EdgesOut(g: Graph, ns: seq<Topic>): (r: seq<Edge>)
    ensures forall e :: e in r <==> e in g.edges && e.0 in ns && e.1 in g.nodes
  {
    if ns == [] then []
    else
      var here := OutPairs(ns[0], Targets(g.nodes, g.edges, ns[0]));
      var rest := EdgesOut(g, ns[1..]);
      assert forall e :: e in here <==> e in g.edges && e.0 == ns[0] && e.1 in g.nodes by {
        forall e | e in here ensures e.0 == ns[0] && e.1 in Targets(g.nodes, g.edges, ns[0]) {
          var i :| 0 <= i < |here| && here[i] == e;
        }
        forall e | e in g.edges && e.0 == ns[0] && e.1 in g.nodes ensures e in here {
          var t := Targets(g.nodes, g.edges, ns[0]);
          var i :| 0 <= i < |t| && t[i] == e.1;
          assert here[i] == e;
        }
      }
      here + rest
  }

  /** The edge list of the whole graph. */
  function EdgeList(g: Graph): (r: seq<Edge>)
    ensures Wellformed(g) ==> forall e :: e in r <==> e in g.edges
    ensures forall y :: y in Endpoints(r) ==> y in g.nodes
  {
    var r := EdgesOut(g, g.nodes);
    assert forall e :: e in r ==> e.0 in g.nodes && e.1 in g.nodes;
    r
  }

  /** The outgoing edges of distinct nodes are listed without repeats. */
  lemma {:induction false} EdgesOutNoDup(g: Graph, ns: seq<Topic>)
    requires NoDup(g.nodes) && NoDup(ns)
    ensures NoDup(EdgesOut(g, ns))
    decreases |ns|
  {
    if ns != [] {
      var t := Targets(g.nodes, g.edges, ns[0]);
      var here := OutPairs(ns[0], t);
      var rest := EdgesOut(g, ns[1..]);
      assert NoDup(ns[1..]) by {
        forall i, j | 0 <= i < j < |ns[1..]| ensures ns[1..][i] != ns[1..][j] {
          assert ns[1..][i] == ns[i + 1] && ns[1..][j] == ns[j + 1];
        }
      }
      EdgesOutNoDup(g, ns[1..]);
      assert ns[0] !in ns[1..];
      var all := here + rest;
      assert EdgesOut(g, ns) == all;
      forall i, j | 0 <= i < j < |all| ensures all[i] != all[j] {
        if j < |here| {
          assert all[i] == (ns[0], t[i]) && all[j] == (ns[0], t[j]);
        } else if i >= |here| {
          assert all[i] == rest[i - |here|] && all[j] == rest[j - |here|];
        } else {
          assert all[j] == rest[j - |here|];
          assert all[j] in rest;
          assert all[i].0 == ns[0];
        }
      }
    }
  }

  /** `list(mindmap.edges)` of a well-formed graph lists each edge once. */
  lemma EdgeListNoDup(g: Graph)
    requires Wellformed(g)
    ensures NoDup(EdgeList(g))
  {
    EdgesOutNoDup(g, g.nodes);
  }

  /** What renaming `o` to `n` does to the graph (main.py:247-256): take the
      successor and predecessor lists of `o`, remove `o`, add `n`, then add
      `(n, v)` for each successor and `(p, n)` for each predecessor. */
  function Renamed(g: Graph, o: Topic, n: Topic): (r: Graph)
    requires Wellformed(g)
    ensures Wellformed(r)
    ensures n in r.nodes
  {
    var outs := OutPairs(n, SuccessorList(g, o));
    var ins := InPairs(PredecessorList(g, o), n);
    AddEdgesFrom(AddEdgesFrom(AddNode(RemoveNode(g, o), n), outs), ins)
  }

  /** `x` with `o` replaced by `n`. */
  function Relabel(x: Topic, o: Topic, n: Topic): Topic {
    if x == o then n else x
  }

  /** The image of an edge set under renaming `o` to `n`. */
  function RelabelEdges(es: set<Edge>, o: Topic, n: Topic): set<Edge> {
    set e | e in es :: (Relabel(e.0, o, n), Relabel(e.1, o, n))
  }

  /** The edges after renaming `o` to `n`, whether or not `o` has a
      self-loop: the edges not touching `o`, plus `(n, v)` for each old
      successor `v` of `o` and `(p, n)` for each old predecessor `p`. */
  lemma RenamedEdges(g: Graph, o: Topic, n: Topic)
    requires Wellformed(g)
    ensures forall e :: e in Renamed(g, o, n).edges <==>
      || (e in g.edges && e.0 != o && e.1 != o)
      || (e.0 == n && e.1 in Successors(g.edges, o))
      || (e.0 in Predecessors(g.edges, o) && e.1 == n)
  {
    var succ := SuccessorList(g, o);
    var pred := PredecessorList(g, o);
    assert forall v :: v in succ <==> v in Successors(g.edges, o);
    assert forall v :: v in pred <==> v in Predecessors(g.edges, o);
  }

  /** The node list after renaming `o` to a fresh `n`: `o` is removed and `n`
      appended; when `o` had a self-loop, re-adding the captured edges puts
      `o` back at the very end. */
  lemma RenamedNodes(g: Graph, o: Topic, n: Topic)
    requires Wellformed(g) && o in g.nodes && n !in g.nodes
    ensures Renamed(g, o, n).nodes ==
      Without(g.nodes, o) + (if (o, o) in g.edges then [n, o] else [n])
  {
    var succ := SuccessorList(g, o);
    var pred := PredecessorList(g, o);
    var outs := OutPairs(n, succ);
    var ins := InPairs(pred, n);
    var h0 := AddNode(RemoveNode(g, o), n);
    var base := Without(g.nodes, o) + [n];
    assert base + [o] == Without(g.nodes, o) + [n, o];
    assert base + [] == base;
    assert h0.nodes == base;
    assert forall v :: v in succ <==> v in Successors(g.edges, o);
    assert forall v :: v in pred <==> v in Predecessors(g.edges, o);
    assert o in succ <==> (o, o) in g.edges;
    assert forall y :: y in Endpoints(outs) ==> y in base || y == o;
    var h1 := AddEdgesFrom(h0, outs);
    AddEdgesFromOneNew(h0, outs, o);
    assert o in Endpoints(outs) <==> (o, o) in g.edges;
    assert h1.nodes == base + (if (o, o) in g.edges then [o] else []);
    assert forall y :: y in Endpoints(ins) ==> y in h1.nodes;
    var h2 := AddEdgesFrom(h1, ins);
    assert h2.nodes == h1.nodes;
    assert h2 == Renamed(g, o, n);
  }

  /** Without a self-loop on `o`, renaming `o` to a fresh `n` is exactly a
      relabelling: `o` leaves the node list, `n` joins it at the end, and
      every edge is kept with `o` replaced by `n`. */
  lemma RenameRelabels(g: Graph, o: Topic, n: Topic)
    requires Wellformed(g) && o in g.nodes && n !in g.nodes && (o, o) !in g.edges
    ensures Renamed(g, o, n).nodes == Without(g.nodes, o) + [n]
    ensures Renamed(g, o, n).edges == RelabelEdges(g.edges, o, n)
    ensures Wellformed(Renamed(g, o, n))
  {
    RenamedNodes(g, o, n);
    RenamedEdges(g, o, n);
    var r := Renamed(g, o, n);
    forall e | e in r.edges ensures e in RelabelEdges(g.edges, o, n) {
      if e.0 == n && e.1 in Successors(g.edges, o) {
        assert (o, e.1) in g.edges && e.1 != o;
        assert e == (Relabel(o, o, n), Relabel(e.1, o, n));
      } else if e.0 in Predecessors(g.edges, o) && e.1 == n {
        assert (e.0, o) in g.edges && e.0 != o;
        assert e == (Relabel(e.0, o, n), Relabel(o, o, n));
      } else {
        assert e == (Relabel(e.0, o, n), Relabel(e.1, o, n));
      }
    }
    forall e | e in g.edges ensures (Relabel(e.0, o, n), Relabel(e.1, o, n)) in r.edges {
      if e.0 == o {
        assert e.1 in Successors(g.edges, o);
      } else if e.1 == o {
        assert e.0 in Predecessors(g.edges, o);
      }
    }
  }

  /** Relabelling `o` to a fresh `n` in a graph without a self-loop on `o`
      moves `o`'s successors and predecessors to `n` and keeps every edge
      not touching `o`. */
  lemma RelabelKeepsTopology(g: Graph, o: Topic, n: Topic)
    requires Wellformed(g) && n !in g.nodes && (o, o) !in g.edges
    ensures Successors(RelabelEdges(g.edges, o, n), n) == Successors(g.edges, o)
    ensures Predecessors(RelabelEdges(g.edges, o, n), n) == Predecessors(g.edges, o)
    ensures forall e: Edge :: e.0 != n && e.1 != n ==>
      (e in RelabelEdges(g.edges, o, n) <==> e in g.edges && e.0 != o && e.1 != o)
  {
    var es := RelabelEdges(g.edges, o, n);
    forall v ensures v in Successors(es, n) <==> v in Successors(g.edges, o) {
      if v in Successors(g.edges, o) {
        assert (o, v) in g.edges && v != o;
        assert (Relabel(o, o, n), Relabel(v, o, n)) in es;
      }
      if v in Successors(es, n) {
        var e :| e in g.edges && (Relabel(e.0, o, n), Relabel(e.1, o, n)) == (n, v);
        assert e.0 == o;
      }
    }
    forall p ensures p in Predecessors(es, n) <==> p in Predecessors(g.edges, o) {
      if p in Predecessors(g.edges, o) {
        assert (p, o) in g.edges && p != o;
        assert (Relabel(p, o, n), Relabel(o, o, n)) in es;
      }
      if p in Predecessors(es, n) {
        var e :| e in g.edges && (Relabel(e.0, o, n), Relabel(e.1, o, n)) == (p, n);
        assert e.1 == o;
      }
    }
    forall e: Edge | e.0 != n && e.1 != n
      ensures e in es <==> e in g.edges && e.0 != o && e.1 != o
    {
      if e in g.edges && e.0 != o && e.1 != o {
        assert (Relabel(e.0, o, n), Relabel(e.1, o, n)) == e;
      }
    }
  }

  /** Topology kept by a rename without a self-loop: the new name has
      exactly the successors and the predecessors the old name had, the old
      name is gone, and every edge not touching the renamed topic is kept. */
  lemma RenameKeepsTopology(g: Graph, o: Topic, n: Topic)
    requires Wellformed(g) && o in g.nodes && n !in g.nodes && (o, o) !in g.edges
    ensures o !in Renamed(g, o, n).nodes && n in Renamed(g, o, n).nodes
    ensures Successors(Renamed(g, o, n).edges, n) == Successors(g.edges, o)
    ensures Predecessors(Renamed(g, o, n).edges, n) == Predecessors(g.edges, o)
    ensures forall e: Edge :: e.0 != n && e.1 != n ==>
      (e in Renamed(g, o, n).edges <==> e in g.edges && e.0 != o && e.1 != o)
  {
    RenameRelabels(g, o, n);
    RelabelKeepsTopology(g, o, n);
  }

  /** What the rename does to a topic with a self-loop: the captured loop is
      re-added as `(n, o)` and `(o, n)`, which puts `o` back as a node and
      creates two opposite edges. */
  lemma RenameSelfLoop(g: Graph, o: Topic, n: Topic)
    requires Wellformed(g) && o in g.nodes && n !in g.nodes && (o, o) in g.edges
    ensures o in Renamed(g, o, n).nodes
    ensures (n, o) in Renamed(g, o, n).edges && (o, n) in Renamed(g, o, n).edges
    ensures !Asymmetric(Renamed(g, o, n))
  {
    RenamedNodes(g, o, n);
    RenamedEdges(g, o, n);
    assert o in Successors(g.edges, o) && o in Predecessors(g.edges, o);
  }

  /** A rename without a self-loop keeps the graph free of opposite edges. */
  lemma RenameKeepsAsymmetric(g: Graph, o: Topic, n: Topic)
    requires Wellformed(g) && o in g.nodes && n !in g.nodes && (o, o) !in g.edges
    requires Asymmetric(g)
    ensures Asymmetric(Renamed(g, o, n))
  {
    RenamedEdges(g, o, n);
    var r := Renamed(g, o, n);
    forall e | e in r.edges && e.0 != e.1 ensures (e.1, e.0) !in r.edges {
      if e.0 == n {
        assert (o, e.1) in g.edges && e.1 != o;
      } else if e.1 == n {
        assert (e.0, o) in g.edges && e.0 != o;
      } else {
        assert e in g.edges;
      }
    }
  }

  /** Adding pairs whose only endpoint outside the graph is `x` appends `x`
      once if it occurs at all. */
  lemma {:induction false} AddEdgesFromOneNew(h: Graph, ps: seq<Edge>, x: Topic)
    requires x !in h.nodes
    requires forall y :: y in Endpoints(ps) ==> y in h.nodes || y == x
    ensures AddEdgesFrom(h, ps).nodes == h.nodes + (if x in Endpoints(ps) then [x] else [])
    decreases |ps|
  {
    if ps != [] {
      var front := ps[..|ps| - 1];
      var last := ps[|ps| - 1];
      assert ps == front + [last];
      assert Endpoints(ps) == Endpoints(front) + {last.0, last.1};
      AddEdgesFromOneNew(h, front, x);
    }
  }

  /** Adding distinct new nodes one by one appends them in their order. */
  lemma {:induction false} AddNodesFromDistinct(g: Graph, xs: seq<Topic>)
    requires NoDup(g.nodes + xs)
    ensures AddNodesFrom(g, xs).nodes == g.nodes + xs
    decreases |xs|
  {
    if xs != [] {
      var front := xs[..|xs| - 1];
      var last := xs[|xs| - 1];
      assert g.nodes + xs == (g.nodes + front) + [last];
      assert NoDup(g.nodes + front) by {
        assert g.nodes + front == (g.nodes + xs)[..|g.nodes| + |front|];
      }
      AddNodesFromDistinct(g, front);
      assert last !in g.nodes + front by {
        var whole := g.nodes + xs;
        assert whole[|whole| - 1] == last;
        assert forall i :: 0 <= i < |whole| - 1 ==> whole[i] != last;
        assert forall i :: 0 <= i < |g.nodes + front| ==> (g.nodes + front)[i] == whole[i];
      }
    }
  }
}
